/** Writing a bundle to the bytes of its container. */
module PolbWriter {
  import opened Layouts
  import opened Polb
  import opened Sequences

  method PutU16(out: Bytes, v: nat) returns (r: Bytes)
    ensures r == out + Little(v, 2)
  {
    assert Little(v / 256, 1) == [(v / 256 % 256) as Byte];
    r := out + [(v % 256) as Byte] + [(v / 256 % 256) as Byte];
  }

  method PutU32(out: Bytes, v: nat) returns (r: Bytes)
    ensures r == out + Little(v, 4)
  {
    r := out;
    var shifted := v;
    for i := 0 to 4
      invariant r + Little(shifted, 4 - i) == out + Little(v, 4)
    {
      r := r + [(shifted % 256) as Byte];
      shifted := shifted / 256;
    }
  }

  /** The length is cast to 16 bits; the text itself is not cut. */
  method PutStr16(out: Bytes, s: Bytes) returns (r: Bytes)
    ensures r == out + Write(Text(2), T(s))
  {
    r := PutU16(out, |s|);
    r := r + s;
  }

  method PutStr32(out: Bytes, s: Bytes) returns (r: Bytes)
    ensures r == out + Write(Text(4), T(s))
  {
    r := PutU32(out, |s|);
    r := r + s;
  }

  method PutDep(out: Bytes, d: Dep) returns (r: Bytes)
    requires |d.fingerprint| == 32
    ensures r == out + Write(DEP, DepValue(d))
  {
    ghost var v := DepValue(d);
    WriteThree(Text(2), Text(2), Fixed(32), v);
    assert Write(Fixed(32), T(d.fingerprint)) == d.fingerprint;
    hide Little, Write;
    RegroupThree(out, Write(Text(2), v.first), Write(Text(2), v.second.first), d.fingerprint);
    r := PutStr16(out, d.name);
    r := PutStr16(r, d.versionConstraint);
    r := r + d.fingerprint;
  }

  method PutLib(out: Bytes, l: ForeignLib) returns (r: Bytes)
    ensures r == out + Write(LIB, LibValue(l))
  {
    ghost var v := LibValue(l);
    WriteThree(Text(2), Text(2), Text(2), v);
    hide Little, Write;
    RegroupThree(out, Write(Text(2), v.first), Write(Text(2), v.second.first), Write(Text(2), v.second.second));
    r := PutStr16(out, l.logical);
    r := PutStr16(r, l.platform);
    r := PutStr16(r, l.file);
  }

  method PutTexts(out: Bytes, xs: seq<Bytes>) returns (r: Bytes)
    ensures Typed(Many(Text(2)), L(Values(xs, TextValue)))
    ensures r == out + Write(Many(Text(2)), L(Values(xs, TextValue)))
  {
    hide Write, WriteEach, DepValue, LibValue, Little, Typed;
    TextsFitIff(xs);
    ghost var vs := Values(xs, TextValue);
    WriteManyIs(Text(2), vs);
    r := PutU16(out, |xs|);
    ghost var start := r;
    assert r == out + Little(|vs|, 2);
    for i := 0 to |xs|
      invariant r == start + WriteEach(Text(2), vs[..i])
    {
      r := PutStr16(r, xs[i]);
      WriteOneMore(Text(2), vs[..i], vs[i]);
      assert vs[..i] + [vs[i]] == vs[..i + 1];
    }
    assert vs[..|vs|] == vs;
  }

  method PutDeps(out: Bytes, ds: seq<Dep>) returns (r: Bytes)
    requires forall i :: 0 <= i < |ds| ==> |ds[i].fingerprint| == 32
    ensures Typed(Many(DEP), L(Values(ds, DepValue)))
    ensures r == out + Write(Many(DEP), L(Values(ds, DepValue)))
  {
    hide Write, WriteEach, DepValue, LibValue, Little, Typed;
    DepsFitIff(ds);
    ghost var vs := Values(ds, DepValue);
    WriteManyIs(DEP, vs);
    r := PutU16(out, |ds|);
    ghost var start := r;
    for i := 0 to |ds|
      invariant r == start + WriteEach(DEP, vs[..i])
    {
      r := PutDep(r, ds[i]);
      WriteOneMore(DEP, vs[..i], vs[i]);
      assert vs[..i] + [vs[i]] == vs[..i + 1];
    }
    assert vs[..|vs|] == vs;
  }

  method PutLibs(out: Bytes, ls: seq<ForeignLib>) returns (r: Bytes)
    ensures Typed(Many(LIB), L(Values(ls, LibValue)))
    ensures r == out + Write(Many(LIB), L(Values(ls, LibValue)))
  {
    hide Write, WriteEach, DepValue, LibValue, Little, Typed;
    LibsFitIff(ls);
    ghost var vs := Values(ls, LibValue);
    WriteManyIs(LIB, vs);
    r := PutU16(out, |ls|);
    ghost var start := r;
    for i := 0 to |ls|
      invariant r == start + WriteEach(LIB, vs[..i])
    {
      r := PutLib(r, ls[i]);
      WriteOneMore(LIB, vs[..i], vs[i]);
      assert vs[..i] + [vs[i]] == vs[..i + 1];
    }
    assert vs[..|vs|] == vs;
  }

  lemma PiecesAreTyped(b: Bundle)
    requires b.Sized()
    ensures Typed(HEADER, HeaderValue(b)) && Typed(NAMES, NamesValue(b)) && Typed(SECTIONS, SectionsValue(b))
    ensures Typed(Many(DEP), L(Values(b.deps, DepValue))) && Typed(Many(LIB), L(Values(b.foreignLibs, LibValue)))
    ensures Typed(Many(Text(2)), L(Values(b.capabilities, TextValue)))
    ensures Typed(Many(Text(2)), L(Values(b.vtableSlots, TextValue)))
    ensures Typed(LISTS, ListsValue(b))
  {
    hide Values;
    FixedPartFitsIff(b);
    DepsFitIff(b.deps);
    TextsFitIff(b.capabilities);
    TextsFitIff(b.vtableSlots);
    LibsFitIff(b.foreignLibs);
    PairFitsIff(Many(DEP), LISTS.second, ListsValue(b));
    PairFitsIff(Many(Text(2)), LISTS.second.second, ListsValue(b).second);
    PairFitsIff(Many(Text(2)), Many(LIB), ListsValue(b).second.second);
  }

  ghost function ListBytes(b: Bundle): Bytes
    requires b.Sized()
  {
    PiecesAreTyped(b);
    Write(Many(DEP), L(Values(b.deps, DepValue))) + Write(Many(Text(2)), L(Values(b.capabilities, TextValue)))
    + Write(Many(Text(2)), L(Values(b.vtableSlots, TextValue))) + Write(Many(LIB), L(Values(b.foreignLibs, LibValue)))
  }

  ghost function FixedBytes(b: Bundle): Bytes
    requires b.Sized()
  {
    PiecesAreTyped(b);
    Write(HEADER, HeaderValue(b)) + Write(NAMES, NamesValue(b)) + Write(SECTIONS, SectionsValue(b))
  }

  lemma ListBytesAre(b: Bundle)
    requires b.Sized()
    ensures Typed(LISTS, ListsValue(b)) && Write(LISTS, ListsValue(b)) == ListBytes(b)
  {
    PiecesAreTyped(b);
    hide Values, Write, Typed;
    WritePair(Many(DEP), LISTS.second, ListsValue(b));
    PairFitsIff(Many(DEP), LISTS.second, ListsValue(b));
    WriteThree(Many(Text(2)), Many(Text(2)), Many(LIB), ListsValue(b).second);
  }

  /** The pieces of a container, in the order they are written. */
  lemma ContainerInPieces(b: Bundle)
    requires b.Sized()
    ensures Container(b) == PREFIX + FixedBytes(b) + ListBytes(b)
  {
    FileFitsIff(b);
    ListBytesAre(b);
    var v := FileValue(b);
    assert v.first == HeaderValue(b) && v.second.first == NamesValue(b);
    assert v.second.second.first == SectionsValue(b) && v.second.second.second == ListsValue(b);
    hide ListBytes, Write, Typed, ListsValue, HeaderValue, NamesValue, SectionsValue, FileValue;
    PairFitsIff(HEADER, BODY, v);
    WritePair(HEADER, BODY, v);
    WriteThree(NAMES, SECTIONS, LISTS, v.second);
    FourParts(PREFIX, Write(HEADER, v.first), Write(NAMES, v.second.first), Write(SECTIONS, v.second.second.first), ListBytes(b));
  }

  lemma FourParts(p: Bytes, a: Bytes, b: Bytes, c: Bytes, d: Bytes)
    ensures p + (a + (b + c + d)) == p + (a + b + c) + d
  {
  }

  lemma WritePair(f1: Layout, f2: Layout, v: Value)
    requires Typed(Both(f1, f2), v)
    ensures Write(Both(f1, f2), v) == Write(f1, v.first) + Write(f2, v.second)
  {
  }

  lemma WriteThree(f1: Layout, f2: Layout, f3: Layout, v: Value)
    requires Typed(Both(f1, Both(f2, f3)), v)
    ensures v.P? && v.second.P? && Typed(f1, v.first) && Typed(f2, v.second.first) && Typed(f3, v.second.second)
    ensures Write(Both(f1, Both(f2, f3)), v) == Write(f1, v.first) + Write(f2, v.second.first) + Write(f3, v.second.second)
  {
    PairFitsIff(f1, Both(f2, f3), v);
    PairFitsIff(f2, f3, v.second);
    WritePair(f1, Both(f2, f3), v);
    WritePair(f2, f3, v.second);
  }

  method WriteHeader(b: Bundle) returns (out: Bytes)
    requires b.Sized()
    ensures Typed(HEADER, HeaderValue(b)) && out == PREFIX + Write(HEADER, HeaderValue(b))
  {
    ghost var v := HeaderValue(b);
    PiecesAreTyped(b);
    WriteThree(Num(2), Num(2), Fixed(32), v);
    hide Little;
    out := PutU16(MAGIC, FORMAT_VERSION);
    out := PutU16(out, b.flags);
    out := PutU16(out, b.abiRevision);
    out := out + b.fingerprint;
    RegroupThree(PREFIX, Little(b.flags, 2), Little(b.abiRevision, 2), b.fingerprint);
  }

  method WriteTexts(before: Bytes, b: Bundle) returns (out: Bytes)
    requires b.Sized()
    ensures Typed(NAMES, NamesValue(b)) && Typed(SECTIONS, SectionsValue(b))
    ensures out == before + Write(NAMES, NamesValue(b)) + Write(SECTIONS, SectionsValue(b))
  {
    ghost var n, v := NamesValue(b), SectionsValue(b);
    PiecesAreTyped(b);
    WriteThree(Text(2), Text(2), Text(2), n);
    WriteThree(Text(4), Text(4), Text(4), v);
    hide Write;
    out := PutStr16(before, b.name);
    out := PutStr16(out, b.version);
    out := PutStr16(out, b.producer);
    RegroupThree(before, Write(Text(2), n.first), Write(Text(2), n.second.first), Write(Text(2), n.second.second));
    ghost var middle := out;
    out := PutStr32(out, b.polh);
    out := PutStr32(out, b.code);
    out := PutStr32(out, b.pir);
    RegroupThree(middle, Write(Text(4), v.first), Write(Text(4), v.second.first), Write(Text(4), v.second.second));
  }

  method WritePolb(b: Bundle) returns (out: Bytes)
    requires b.Sized()
    ensures out == Container(b)
  {
    ContainerInPieces(b);
    hide Values, Write, Container;
    out := WriteHeader(b);
    out := WriteTexts(out, b);
    RegroupThree(PREFIX, Write(HEADER, HeaderValue(b)), Write(NAMES, NamesValue(b)), Write(SECTIONS, SectionsValue(b)));
    ghost var fixed := out;
    out := PutDeps(out, b.deps);
    out := PutTexts(out, b.capabilities);
    out := PutTexts(out, b.vtableSlots);
    out := PutLibs(out, b.foreignLibs);
    RegroupFour(fixed, Write(Many(DEP), L(Values(b.deps, DepValue))),
                Write(Many(Text(2)), L(Values(b.capabilities, TextValue))),
                Write(Many(Text(2)), L(Values(b.vtableSlots, TextValue))),
                Write(Many(LIB), L(Values(b.foreignLibs, LibValue))));
  }

}
