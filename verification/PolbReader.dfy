/** Reading a container with a bounds-checked cursor into a bundle, and the whole way there and back. */
module PolbReader {
  import opened Layouts
  import opened Polb
  import opened PolbWriter

  /** A bounds-checked cursor over a buffer. */
  class Reader {
    const b: Bytes
    var pos: nat
    var ok: bool

    function Now(): Cursor
      reads this
    {
      Cursor(pos, ok)
    }

    predicate Valid()
      reads this
    {
      pos <= |b|
    }

    constructor (b: Bytes, pos: nat)
      requires pos <= |b|
      ensures Valid() && this.b == b && Now() == Cursor(pos, true)
    {
      this.b, this.pos, ok := b, pos, true;
    }

    method U16() returns (v: nat)
      requires Valid()
      modifies this
      ensures Valid() && (v, Now()) == ReadNum(b, old(Now()), 2) && v < 65536
    {
      if pos + 2 > |b| {
        ok := false;
        return 0;
      }
      v := b[pos] as nat + 256 * b[pos + 1] as nat;
      assert b[pos..pos + 2][1..] == [b[pos + 1]];
      assert FromLittle([b[pos + 1]]) == b[pos + 1] as nat;
      pos := pos + 2;
    }

    method U32() returns (v: nat)
      requires Valid()
      modifies this
      ensures Valid() && (v, Now()) == ReadNum(b, old(Now()), 4)
    {
      if pos + 4 > |b| {
        ok := false;
        return 0;
      }
      v := 0;
      var unit := 1;
      for i := 0 to 4
        invariant Now() == old(Now()) && unit == Limit(i) && v == FromLittle(b[pos..pos + i])
      {
        FromLittleAppend(b[pos..pos + i], b[pos + i]);
        assert b[pos..pos + i + 1] == b[pos..pos + i] + [b[pos + i]];
        v := v + unit * b[pos + i] as nat;
        unit := 256 * unit;
      }
      pos := pos + 4;
    }

    method Str(n: nat) returns (s: Bytes)
      requires Valid()
      modifies this
      ensures Valid() && (s, Now()) == ReadBytes(b, old(Now()), n)
    {
      if pos + n > |b| {
        ok := false;
        return [];
      }
      s := b[pos..pos + n];
      pos := pos + n;
    }

    method Str16() returns (s: Bytes)
      requires Valid()
      modifies this
      ensures Valid() && (T(s), Now()) == Read(Text(2), b, old(Now()))
    {
      hide FromLittle;
      var n := U16();
      s := Str(n);
    }

    method Str32() returns (s: Bytes)
      requires Valid()
      modifies this
      ensures Valid() && (T(s), Now()) == Read(Text(4), b, old(Now()))
    {
      hide FromLittle;
      var n := U32();
      s := Str(n);
    }

    /** The names of a counted list. */
    method Texts() returns (xs: seq<Bytes>)
      requires Valid()
      modifies this
      ensures Valid() && (L(Values(xs, TextValue)), Now()) == Read(Many(Text(2)), b, old(Now()))
    {
      ReadManyIs(Text(2), b, Now());
      hide Read, ReadEach, FromLittle, Values;
      var n := U16();
      ghost var start := Now();
      xs := [];
      var i := 0;
      ProgressStarts(Text(2), b, n, start);
      ValuesOfNone<Bytes>(TextValue);
      while i < n && ok
        invariant Valid() && i <= n
        invariant Progress(Text(2), b, n, start, Values(xs, TextValue), n - i, Now())
      {
        ghost var before := Now();
        ghost var got := Values(xs, TextValue);
        var s := Str16();
        ProgressStep(Text(2), b, n, start, got, n - i, before);
        ValuesAppend(xs, s, TextValue);
        xs := xs + [s];
        i := i + 1;
      }
      ProgressEnds(Text(2), b, n, start, Values(xs, TextValue), n - i, Now());
    }

    /** The required bundles of a counted list. */
    method Deps() returns (xs: seq<Dep>)
      requires Valid()
      modifies this
      ensures Valid() && Now() == Read(Many(DEP), b, old(Now())).1
      ensures ok ==> L(Values(xs, DepValue)) == Read(Many(DEP), b, old(Now())).0
      ensures forall i :: 0 <= i < |xs| ==> |xs[i].fingerprint| == 32
    {
      ReadManyIs(DEP, b, Now());
      hide Read, ReadEach, FromLittle, Values;
      var n := U16();
      ghost var start := Now();
      xs := [];
      var i := 0;
      ghost var got: seq<Value> := [];
      ProgressStarts(DEP, b, n, start);
      ValuesOfNone<Dep>(DepValue);
      while i < n && ok
        invariant Valid() && i <= n && (ok ==> got == Values(xs, DepValue))
        invariant Progress(DEP, b, n, start, got, n - i, Now())
        invariant forall j :: 0 <= j < |xs| ==> |xs[j].fingerprint| == 32
      {
        ghost var before := Now();
        var d := OneDep();
        ProgressStep(DEP, b, n, start, got, n - i, before);
        ValuesAppend(xs, d, DepValue);
        got := got + [Read(DEP, b, before).0];
        xs := xs + [d];
        i := i + 1;
      }
      ProgressEnds(DEP, b, n, start, got, n - i, Now());
    }

    /** One required bundle; after a failure its fingerprint stays all zeros. */
    method OneDep() returns (d: Dep)
      requires Valid()
      modifies this
      ensures Valid() && Now() == Read(DEP, b, old(Now())).1 && |d.fingerprint| == 32
      ensures ok ==> DepValue(d) == Read(DEP, b, old(Now())).0
    {
      ReadPairIs(Text(2), DEP.second, b, Now());
      ReadPairIs(Text(2), Fixed(32), b, Read(Text(2), b, Now()).1);
      ReadFixedIs(32, b, Read(Text(2), b, Read(Text(2), b, Now()).1).1);
      hide Read;
      var name := Str16();
      var constraint := Str16();
      var fp := Str(32);
      d := Dep(name, constraint, if ok then fp else seq(32, i => 0));
    }

    method Libs() returns (xs: seq<ForeignLib>)
      requires Valid()
      modifies this
      ensures Valid() && (L(Values(xs, LibValue)), Now()) == Read(Many(LIB), b, old(Now()))
    {
      ReadManyIs(LIB, b, Now());
      hide Read, ReadEach, FromLittle, Values;
      var n := U16();
      ghost var start := Now();
      xs := [];
      var i := 0;
      ProgressStarts(LIB, b, n, start);
      ValuesOfNone<ForeignLib>(LibValue);
      while i < n && ok
        invariant Valid() && i <= n
        invariant Progress(LIB, b, n, start, Values(xs, LibValue), n - i, Now())
      {
        ghost var before := Now();
        ghost var got := Values(xs, LibValue);
        var l := OneLib();
        ProgressStep(LIB, b, n, start, got, n - i, before);
        ValuesAppend(xs, l, LibValue);
        xs := xs + [l];
        i := i + 1;
      }
      ProgressEnds(LIB, b, n, start, Values(xs, LibValue), n - i, Now());
    }

    method OneLib() returns (l: ForeignLib)
      requires Valid()
      modifies this
      ensures Valid() && (LibValue(l), Now()) == Read(LIB, b, old(Now()))
    {
      ReadPairIs(Text(2), LIB.second, b, Now());
      ReadPairIs(Text(2), Text(2), b, Read(Text(2), b, Now()).1);
      hide Read;
      var logical := Str16();
      var platform := Str16();
      var file := Str16();
      l := ForeignLib(logical, platform, file);
    }
  }

  lemma ValuesOfNone<X>(f: X -> Value)
    ensures Values([], f) == []
  {
  }

  lemma ValuesAppend<X>(xs: seq<X>, x: X, f: X -> Value)
    ensures Values(xs + [x], f) == Values(xs, f) + [f(x)]
  {
  }

  /** `got` has been read, `left` items may follow at `c`: together they are what the whole list reads as. */
  ghost predicate Progress(item: Layout, b: Bytes, n: nat, start: Cursor, got: seq<Value>, left: nat, c: Cursor)
  {
    && ReadEach(item, n, b, start).0 == got + ReadEach(item, left, b, c).0
    && ReadEach(item, n, b, start).1 == ReadEach(item, left, b, c).1
  }

  lemma ProgressStarts(item: Layout, b: Bytes, n: nat, start: Cursor)
    ensures Progress(item, b, n, start, [], n, start)
  {
  }

  lemma ProgressStep(item: Layout, b: Bytes, n: nat, start: Cursor, got: seq<Value>, left: nat, c: Cursor)
    requires Progress(item, b, n, start, got, left, c) && left > 0 && c.ok
    ensures Progress(item, b, n, start, got + [Read(item, b, c).0], left - 1, Read(item, b, c).1)
  {
    ReadOneMore(item, left, b, c);
    var x, rest := Read(item, b, c).0, ReadEach(item, left - 1, b, Read(item, b, c).1).0;
    assert got + ([x] + rest) == got + [x] + rest;
  }

  lemma ProgressEnds(item: Layout, b: Bytes, n: nat, start: Cursor, got: seq<Value>, left: nat, c: Cursor)
    requires Progress(item, b, n, start, got, left, c) && (left == 0 || !c.ok)
    ensures ReadEach(item, n, b, start) == (got, c)
  {
    assert got + [] == got;
  }

  // ---- reading a whole container ----

  /** The bundle a reader fills in. */
  class PolbBundle {
    var flags: U16
    var abiRevision: U16
    var fingerprint: Bytes
    var name: Bytes
    var version: Bytes
    var producer: Bytes
    var polh: Bytes
    var code: Bytes
    var pir: Bytes
    var deps: seq<Dep>
    var capabilities: seq<Bytes>
    var vtableSlots: seq<Bytes>
    var foreignLibs: seq<ForeignLib>

    ghost function View(): Bundle
      reads this
    {
      Bundle(flags, abiRevision, fingerprint, name, version, producer, polh, code, pir,
             deps, capabilities, vtableSlots, foreignLibs)
    }

    constructor ()
      ensures View() == Bundle(0, 1, seq(32, i => 0), [], [], [], [], [], [], [], [], [], [])
    {
      flags, abiRevision, fingerprint := 0, 1, seq(32, i => 0);
      name, version, producer, polh, code, pir := [], [], [], [], [], [];
      deps, capabilities, vtableSlots, foreignLibs := [], [], [], [];
    }
  }

  /** `now` is `was` with the list entries of `b` appended and every other field replaced by that of `b`. */
  ghost predicate Filled(was: Bundle, now: Bundle, b: Bundle)
  {
    now == b.(deps := was.deps + b.deps, capabilities := was.capabilities + b.capabilities,
              vtableSlots := was.vtableSlots + b.vtableSlots, foreignLibs := was.foreignLibs + b.foreignLibs)
  }

  lemma ReadThreeIs(f1: Layout, f2: Layout, f3: Layout, b: Bytes, c: Cursor)
    ensures
      var (x, d) := Read(f1, b, c);
      var (y, e) := Read(f2, b, d);
      var (z, f) := Read(f3, b, e);
      Read(Both(f1, Both(f2, f3)), b, c) == (P(x, P(y, z)), f)
  {
    ReadPairIs(f1, Both(f2, f3), b, c);
    ReadPairIs(f2, f3, b, Read(f1, b, c).1);
  }

  /** Flags, layout revision and fingerprint. */
  method ReadHeader(r: Reader, out: PolbBundle)
    requires r.Valid()
    modifies r, out`flags, out`abiRevision, out`fingerprint
    ensures r.Valid() && r.Now() == Read(HEADER, r.b, old(r.Now())).1
    ensures r.ok ==> HeaderValue(out.View()) == Read(HEADER, r.b, old(r.Now())).0
  {
    ReadThreeIs(Num(2), Num(2), Fixed(32), r.b, r.Now());
    ReadFixedIs(32, r.b, Read(Num(2), r.b, Read(Num(2), r.b, r.Now()).1).1);
    hide FromLittle;
    out.flags := r.U16();
    out.abiRevision := r.U16();
    var fp := r.Str(32);
    if r.ok {
      out.fingerprint := fp;
    }
  }

  method ReadNames(r: Reader, out: PolbBundle)
    requires r.Valid()
    modifies r, out`name, out`version, out`producer
    ensures r.Valid() && (NamesValue(out.View()), r.Now()) == Read(NAMES, r.b, old(r.Now()))
  {
    ReadThreeIs(Text(2), Text(2), Text(2), r.b, r.Now());
    hide Read;
    out.name := r.Str16();
    out.version := r.Str16();
    out.producer := r.Str16();
  }

  method ReadSections(r: Reader, out: PolbBundle)
    requires r.Valid()
    modifies r, out`polh, out`code, out`pir
    ensures r.Valid() && (SectionsValue(out.View()), r.Now()) == Read(SECTIONS, r.b, old(r.Now()))
  {
    ReadThreeIs(Text(4), Text(4), Text(4), r.b, r.Now());
    hide Read;
    out.polh := r.Str32();
    out.code := r.Str32();
    out.pir := r.Str32();
  }

  /** The four counted lists, appended to what the bundle already lists. */
  method ReadLists(r: Reader, out: PolbBundle) returns (ghost got: Bundle)
    requires r.Valid()
    modifies r, out`deps, out`capabilities, out`vtableSlots, out`foreignLibs
    ensures r.Valid() && r.Now() == Read(LISTS, r.b, old(r.Now())).1
    ensures r.ok ==> ListsValue(got) == Read(LISTS, r.b, old(r.Now())).0
    ensures Filled(old(out.View()), out.View(), got)
    ensures forall i :: 0 <= i < |got.deps| ==> |got.deps[i].fingerprint| == 32
  {
    ghost var c := r.Now();
    ReadPairIs(Many(DEP), LISTS.second, r.b, c);
    ghost var d := Read(Many(DEP), r.b, c).1;
    ReadThreeIs(Many(Text(2)), Many(Text(2)), Many(LIB), r.b, d);
    hide Read, Values;
    var deps := r.Deps();
    ghost var depsOk := r.ok;
    var capabilities := r.Texts();
    var slots := r.Texts();
    var libs := r.Libs();
    got := out.View().(deps := deps, capabilities := capabilities, vtableSlots := slots, foreignLibs := libs);
    assert r.ok ==> depsOk by {
      ReadMoves(LISTS.second, r.b, d);
    }
    out.deps := out.deps + deps;
    out.capabilities := out.capabilities + capabilities;
    out.vtableSlots := out.vtableSlots + slots;
    out.foreignLibs := out.foreignLibs + libs;
  }

  ghost function BodyValue(b: Bundle): Value { P(NamesValue(b), P(SectionsValue(b), ListsValue(b))) }

  lemma FileIsHeaderAndBody(b: Bundle)
    ensures FileValue(b) == P(HeaderValue(b), BodyValue(b))
  {
  }

  /** Names, sections and lists; the header fields are left alone. */
  method ReadBody(r: Reader, out: PolbBundle) returns (ghost got: Bundle)
    requires r.Valid()
    modifies r, out`name, out`version, out`producer, out`polh, out`code, out`pir
    modifies out`deps, out`capabilities, out`vtableSlots, out`foreignLibs
    ensures r.Valid() && r.Now() == Read(BODY, r.b, old(r.Now())).1
    ensures r.ok ==> BodyValue(got) == Read(BODY, r.b, old(r.Now())).0
    ensures Filled(old(out.View()), out.View(), got)
    ensures forall i :: 0 <= i < |got.deps| ==> |got.deps[i].fingerprint| == 32
  {
    ReadThreeIs(NAMES, SECTIONS, LISTS, r.b, r.Now());
    hide Read, ListsValue;
    ReadNames(r, out);
    ReadSections(r, out);
    got := ReadLists(r, out);
  }

  /** Everything behind the version; a header cut short ends the reading early. */
  method ReadFile(r: Reader, out: PolbBundle) returns (good: bool, ghost got: Bundle)
    requires r.Valid()
    modifies r, out
    ensures good <==> Read(FILE, r.b, old(r.Now())).1.ok
    ensures good ==> FileValue(got) == Read(FILE, r.b, old(r.Now())).0
    ensures good ==> got.Sized() && Filled(old(out.View()), out.View(), got)
  {
    ghost var start := r.Now();
    ghost var c := Read(HEADER, r.b, start).1;
    ReadPairIs(HEADER, BODY, r.b, start);
    ReadMoves(HEADER, r.b, start);
    ReadMoves(BODY, r.b, c);
    hide Read, BodyValue;
    ReadHeader(r, out);
    if !r.ok {
      return false, out.View();
    }
    HeaderIsSized(r.b, start);
    got := ReadBody(r, out);
    good := r.ok;
    FileIsHeaderAndBody(got);
  }

  /** False for a wrong magic, an unknown version or any short read. */
  method ReadPolb(bytes: Bytes, out: PolbBundle) returns (good: bool, ghost got: Bundle)
    modifies out
    ensures good <==> Accepted(bytes)
    ensures good ==> FileValue(got) == Read(FILE, bytes, START).0
    ensures good ==> got.Sized() && Filled(old(out.View()), out.View(), got)
  {
    if |bytes| < 4 || bytes[..4] != MAGIC {
      return false, out.View();
    }
    var r := new Reader(bytes, 4);
    var version := r.U16();
    if version != FORMAT_VERSION {
      return false, out.View();
    }
    PrefixLength(bytes);
    hide Read, FileValue;
    good, got := ReadFile(r, out);
  }

  /** Written and read into a new bundle: the bundle comes back, whatever follows its bytes. */
  method WriteThenRead(b: Bundle, rest: Bytes) returns (good: bool, back: PolbBundle)
    requires b.Sized() && BundleFits(b)
    ensures good && back.View() == b
  {
    hide Container, Read, ReadNum, FileValue, Filled, BundleFits;
    var bytes := WritePolb(b);
    back := new PolbBundle();
    ghost var empty := back.View();
    RoundTripIff(b, rest);
    ghost var got;
    good, got := ReadPolb(bytes + rest, back);
    SameValueSameBundle(got, b);
    FilledFromEmpty(empty, back.View(), got);
  }

  lemma FilledFromEmpty(was: Bundle, now: Bundle, b: Bundle)
    requires Filled(was, now, b)
    requires was.deps == [] && was.capabilities == [] && was.vtableSlots == [] && was.foreignLibs == []
    ensures now == b
  {
    assert [] + b.deps == b.deps && [] + b.foreignLibs == b.foreignLibs;
    assert [] + b.capabilities == b.capabilities && [] + b.vtableSlots == b.vtableSlots;
  }

  /** A bundle's value determines the bundle. */
  lemma SameValueSameBundle(x: Bundle, y: Bundle)
    requires FileValue(x) == FileValue(y)
    ensures x == y
  {
    ValuesSame(x.capabilities, y.capabilities, TextValue);
    ValuesSame(x.vtableSlots, y.vtableSlots, TextValue);
    ValuesSame(x.deps, y.deps, DepValue);
    ValuesSame(x.foreignLibs, y.foreignLibs, LibValue);
  }

  lemma ValuesSame<X(!new)>(xs: seq<X>, ys: seq<X>, f: X -> Value)
    requires Values(xs, f) == Values(ys, f) && forall x, y :: f(x) == f(y) ==> x == y
    ensures xs == ys
  {
    forall i | 0 <= i < |xs|
      ensures xs[i] == ys[i]
    {
      assert f(xs[i]) == Values(xs, f)[i] == Values(ys, f)[i] == f(ys[i]);
    }
  }

  lemma HeaderIsSized(b: Bytes, c: Cursor)
    requires c.pos <= |b| && Read(HEADER, b, c).1.ok
    ensures Fits(HEADER, Read(HEADER, b, c).0)
  {
    ReadFits(HEADER, b, c);
  }
}
