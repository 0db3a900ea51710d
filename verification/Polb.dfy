/**
 The `.polb` bundle container: a magic, a format version, and a fixed sequence of numbers,
 length-prefixed strings and counted lists.
 */
module Polb {
  import opened Layouts

  type U16 = n: nat | n < 65536
  type Bytes = seq<Byte>

  const MAGIC: Bytes := [0x50, 0x4F, 0x4C, 0x42]
  const FORMAT_VERSION: nat := 4

  datatype Dep = Dep(name: Bytes, versionConstraint: Bytes, fingerprint: Bytes)
  datatype ForeignLib = ForeignLib(logical: Bytes, platform: Bytes, file: Bytes)

  /** What a bundle holds. */
  datatype Bundle = Bundle(
    flags: U16, abiRevision: U16, fingerprint: Bytes,
    name: Bytes, version: Bytes, producer: Bytes,
    polh: Bytes, code: Bytes, pir: Bytes,
    deps: seq<Dep>, capabilities: seq<Bytes>, vtableSlots: seq<Bytes>, foreignLibs: seq<ForeignLib>)
  {
    /** The fingerprints are arrays of 32 bytes. */
    ghost predicate Sized()
    {
      |fingerprint| == 32 && forall i :: 0 <= i < |deps| ==> |deps[i].fingerprint| == 32
    }
  }

  // ---- the layout of the container behind its version ----

  const DEP := Both(Text(2), Both(Text(2), Fixed(32)))
  const LIB := Both(Text(2), Both(Text(2), Text(2)))
  const LISTS := Both(Many(DEP), Both(Many(Text(2)), Both(Many(Text(2)), Many(LIB))))
  const SECTIONS := Both(Text(4), Both(Text(4), Text(4)))
  const NAMES := Both(Text(2), Both(Text(2), Text(2)))
  const HEADER := Both(Num(2), Both(Num(2), Fixed(32)))
  const BODY := Both(NAMES, Both(SECTIONS, LISTS))
  const FILE := Both(HEADER, BODY)

  function DepValue(d: Dep): Value { P(T(d.name), P(T(d.versionConstraint), T(d.fingerprint))) }
  function LibValue(l: ForeignLib): Value { P(T(l.logical), P(T(l.platform), T(l.file))) }
  function TextValue(s: Bytes): Value { T(s) }

  function Values<X>(xs: seq<X>, f: X -> Value): (r: seq<Value>)
    ensures |r| == |xs| && forall i :: 0 <= i < |xs| ==> r[i] == f(xs[i])
  {
    seq(|xs|, i requires 0 <= i < |xs| => f(xs[i]))
  }

  function HeaderValue(b: Bundle): Value { P(N(b.flags), P(N(b.abiRevision), T(b.fingerprint))) }
  function NamesValue(b: Bundle): Value { P(T(b.name), P(T(b.version), T(b.producer))) }
  function SectionsValue(b: Bundle): Value { P(T(b.polh), P(T(b.code), T(b.pir))) }

  function ListsValue(b: Bundle): Value
  {
    P(L(Values(b.deps, DepValue)), P(L(Values(b.capabilities, TextValue)),
      P(L(Values(b.vtableSlots, TextValue)), L(Values(b.foreignLibs, LibValue)))))
  }

  function FileValue(b: Bundle): Value
  {
    P(HeaderValue(b), P(NamesValue(b), P(SectionsValue(b), ListsValue(b))))
  }

  // ---- which bundles fit ----

  ghost predicate TextsFit(xs: seq<Bytes>)
  {
    |xs| < 65536 && forall x :: x in xs ==> |x| < 65536
  }

  ghost predicate DepsFit(ds: seq<Dep>)
  {
    |ds| < 65536 && forall d :: d in ds ==> |d.name| < 65536 && |d.versionConstraint| < 65536
  }

  ghost predicate LibsFit(ls: seq<ForeignLib>)
  {
    |ls| < 65536 && forall l :: l in ls ==> |l.logical| < 65536 && |l.platform| < 65536 && |l.file| < 65536
  }

  /** Every length and count of the bundle fits its prefix. */
  ghost predicate BundleFits(b: Bundle)
  {
    && |b.name| < 65536 && |b.version| < 65536 && |b.producer| < 65536
    && |b.polh| < 0x1_0000_0000 && |b.code| < 0x1_0000_0000 && |b.pir| < 0x1_0000_0000
    && DepsFit(b.deps) && TextsFit(b.capabilities) && TextsFit(b.vtableSlots) && LibsFit(b.foreignLibs)
  }

  lemma Limits()
    ensures Limit(2) == 65536 && Limit(4) == 0x1_0000_0000
  {
    assert Limit(1) == 256 && Limit(3) == 0x100_0000;
  }

  lemma DepsFitIff(ds: seq<Dep>)
    requires forall i :: 0 <= i < |ds| ==> |ds[i].fingerprint| == 32
    ensures Typed(Many(DEP), L(Values(ds, DepValue)))
    ensures Fits(Many(DEP), L(Values(ds, DepValue))) <==> DepsFit(ds)
  {
    Limits();
    assert forall i :: 0 <= i < |ds| ==> Typed(DEP, DepValue(ds[i]));
    assert forall i :: 0 <= i < |ds| ==>
      (Fits(DEP, DepValue(ds[i])) <==> |ds[i].name| < 65536 && |ds[i].versionConstraint| < 65536);
  }

  lemma TextsFitIff(xs: seq<Bytes>)
    ensures Typed(Many(Text(2)), L(Values(xs, TextValue)))
    ensures Fits(Many(Text(2)), L(Values(xs, TextValue))) <==> TextsFit(xs)
  {
    Limits();
    assert forall i :: 0 <= i < |xs| ==> (Fits(Text(2), TextValue(xs[i])) <==> |xs[i]| < 65536);
  }

  lemma LibsFitIff(ls: seq<ForeignLib>)
    ensures Typed(Many(LIB), L(Values(ls, LibValue)))
    ensures Fits(Many(LIB), L(Values(ls, LibValue))) <==> LibsFit(ls)
  {
    Limits();
    assert forall i :: 0 <= i < |ls| ==> Typed(LIB, LibValue(ls[i]));
    assert forall i :: 0 <= i < |ls| ==>
      (Fits(LIB, LibValue(ls[i])) <==> |ls[i].logical| < 65536 && |ls[i].platform| < 65536 && |ls[i].file| < 65536);
  }

  lemma FixedPartFitsIff(b: Bundle)
    requires b.Sized()
    ensures Typed(HEADER, HeaderValue(b)) && Typed(NAMES, NamesValue(b)) && Typed(SECTIONS, SectionsValue(b))
    ensures Fits(HEADER, HeaderValue(b))
    ensures Fits(NAMES, NamesValue(b)) <==> |b.name| < 65536 && |b.version| < 65536 && |b.producer| < 65536
    ensures Fits(SECTIONS, SectionsValue(b)) <==>
              |b.polh| < 0x1_0000_0000 && |b.code| < 0x1_0000_0000 && |b.pir| < 0x1_0000_0000
  {
    Limits();
  }

  /** The layout's notion of fitting, in the bundle's own terms. */
  lemma FileFitsIff(b: Bundle)
    requires b.Sized()
    ensures Typed(FILE, FileValue(b))
    ensures Fits(FILE, FileValue(b)) <==> BundleFits(b)
  {
    hide DepsFit, TextsFit, LibsFit, Values, Limit;
    FixedPartFitsIff(b);
    DepsFitIff(b.deps);
    TextsFitIff(b.capabilities);
    TextsFitIff(b.vtableSlots);
    LibsFitIff(b.foreignLibs);
    PairFitsIff(HEADER, BODY, FileValue(b));
    PairFitsIff(NAMES, Both(SECTIONS, LISTS), FileValue(b).second);
    PairFitsIff(SECTIONS, LISTS, FileValue(b).second.second);
    PairFitsIff(Many(DEP), LISTS.second, ListsValue(b));
    PairFitsIff(Many(Text(2)), LISTS.second.second, ListsValue(b).second);
    PairFitsIff(Many(Text(2)), Many(LIB), ListsValue(b).second.second);
  }

  lemma PairFitsIff(f1: Layout, f2: Layout, v: Value)
    requires v.P?
    ensures Typed(Both(f1, f2), v) <==> Typed(f1, v.first) && Typed(f2, v.second)
    ensures Fits(Both(f1, f2), v) <==> Fits(f1, v.first) && Fits(f2, v.second)
  {
  }

  // ---- the container as a whole ----

  const PREFIX: Bytes := MAGIC + Little(FORMAT_VERSION, 2)

  /** The bytes of a bundle. */
  ghost function Container(b: Bundle): Bytes
    requires b.Sized()
  {
    FileFitsIff(b);
    PREFIX + Write(FILE, FileValue(b))
  }

  ghost predicate HasPrefix(bytes: Bytes)
  {
    |bytes| >= 4 && bytes[..4] == MAGIC && ReadNum(bytes, Cursor(4, true), 2).0 == FORMAT_VERSION
  }

  /** Where the fields of the file start. */
  const START := Cursor(6, true)

  ghost predicate Accepted(bytes: Bytes)
  {
    HasPrefix(bytes) && Read(FILE, bytes, START).1.ok
  }

  lemma PrefixLength(bytes: Bytes)
    requires HasPrefix(bytes)
    ensures |bytes| >= 6 && ReadNum(bytes, Cursor(4, true), 2).1 == START
  {
  }

  lemma PrefixStays(bytes: Bytes, x: Bytes)
    requires HasPrefix(bytes)
    ensures HasPrefix(bytes + x)
  {
    BytesExtend(bytes, x, Cursor(4, true), 2);
    assert (bytes + x)[..4] == bytes[..4];
  }

  lemma ContainerHasPrefix(w: Bytes)
    ensures HasPrefix(PREFIX + w)
  {
    var version := Little(FORMAT_VERSION, 2);
    Limits();
    LittleReadsBack(FORMAT_VERSION, 2);
    assert PREFIX + w == MAGIC + version + w;
    assert (PREFIX + w)[..4] == MAGIC;
    BytesReadBack(MAGIC, version, w);
  }

  /** A bundle is read back, whatever follows it, exactly when every length and count fits its prefix. */
  lemma RoundTripIff(b: Bundle, rest: Bytes)
    requires b.Sized()
    ensures HasPrefix(Container(b) + rest)
    ensures Read(FILE, Container(b) + rest, START) == (FileValue(b), Cursor(|Container(b)|, true)) <==> BundleFits(b)
  {
    hide Read, Write, Fits, Typed, FileValue;
    FileFitsIff(b);
    var w := Write(FILE, FileValue(b));
    assert Container(b) + rest == PREFIX + (w + rest) == PREFIX + w + rest;
    ContainerHasPrefix(w + rest);
    if BundleFits(b) {
      ReadsBack(FILE, FileValue(b), PREFIX, rest);
    }
    if Read(FILE, Container(b) + rest, START).1.ok {
      ReadFits(FILE, Container(b) + rest, START);
    }
  }

  /** No proper prefix of a container is accepted. */
  lemma PrefixesAreRejected(b: Bundle, k: nat)
    requires b.Sized() && BundleFits(b) && k < |Container(b)|
    ensures !Accepted(Container(b)[..k])
  {
    hide Read, Write, Fits, Typed, FileValue, Container;
    var cut, tail := Container(b)[..k], Container(b)[k..];
    assert cut + tail == Container(b) + [];
    if Accepted(cut) {
      PrefixLength(cut);
      ReadMoves(FILE, cut, START);
      ReadExtends(FILE, cut, tail, START);
      RoundTripIff(b, []);
    }
  }

  /** What is accepted is accepted with anything behind it, and means the same. */
  lemma AcceptedExtends(bytes: Bytes, x: Bytes)
    requires Accepted(bytes)
    ensures Accepted(bytes + x) && Read(FILE, bytes + x, START) == Read(FILE, bytes, START)
    ensures Read(FILE, bytes, START).1.pos <= |bytes|
  {
    PrefixLength(bytes);
    PrefixStays(bytes, x);
    ReadMoves(FILE, bytes, START);
    ReadExtends(FILE, bytes, x, START);
  }
}
