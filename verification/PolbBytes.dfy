/** The bytes of a container written out in order, each where the format puts it. */
module PolbBytes {
  import opened Layouts
  import opened Polb

  /** Two and four bytes, least significant first; higher ones are dropped. */
  function Two(n: nat): Bytes { [(n % 256) as Byte, (n / 256 % 256) as Byte] }
  function Four(n: nat): Bytes { Two(n) + Two(n / 65536) }

  function Short(s: Bytes): Bytes { Two(|s|) + s }
  function Long(s: Bytes): Bytes { Four(|s|) + s }

  function Shorts(xs: seq<Bytes>): Bytes { if xs == [] then [] else Short(xs[0]) + Shorts(xs[1..]) }

  function DepBytes(ds: seq<Dep>): Bytes
  {
    if ds == [] then [] else Short(ds[0].name) + Short(ds[0].versionConstraint) + ds[0].fingerprint + DepBytes(ds[1..])
  }

  function LibBytes(ls: seq<ForeignLib>): Bytes
  {
    if ls == [] then [] else Short(ls[0].logical) + Short(ls[0].platform) + Short(ls[0].file) + LibBytes(ls[1..])
  }

  function NamesBytes(b: Bundle): Bytes { Short(b.name) + Short(b.version) + Short(b.producer) }
  function SectionsBytes(b: Bundle): Bytes { Long(b.polh) + Long(b.code) + Long(b.pir) }

  function ListsBytes(b: Bundle): Bytes
  {
    Two(|b.deps|) + DepBytes(b.deps)
    + (Two(|b.capabilities|) + Shorts(b.capabilities))
    + (Two(|b.vtableSlots|) + Shorts(b.vtableSlots))
    + (Two(|b.foreignLibs|) + LibBytes(b.foreignLibs))
  }

  lemma LittleTwo(n: nat)
    ensures Little(n, 2) == Two(n) && Little(n, 4) == Four(n)
  {
    assert Little(n / 256 / 256, 0) == [] && Little(n / 65536 / 256 / 256, 0) == [];
    assert n / 256 / 256 == n / 65536;
    assert Little(n / 65536, 2) == [(n / 65536 % 256) as Byte] + Little(n / 65536 / 256, 1);
    assert Little(n, 4) == [(n % 256) as Byte] + ([(n / 256 % 256) as Byte] + Little(n / 65536, 2));
  }

  lemma TextBytes(s: Bytes)
    ensures Write(Text(2), T(s)) == Short(s) && Write(Text(4), T(s)) == Long(s)
  {
    LittleTwo(|s|);
  }

  lemma {:induction false} ShortsAre(xs: seq<Bytes>)
    ensures Typed(Many(Text(2)), L(Values(xs, TextValue))) && WriteEach(Text(2), Values(xs, TextValue)) == Shorts(xs)
  {
    if xs != [] {
      TextBytes(xs[0]);
      ShortsAre(xs[1..]);
      assert Values(xs, TextValue)[1..] == Values(xs[1..], TextValue);
    }
  }

  lemma {:induction false} DepsAre(ds: seq<Dep>)
    requires forall i :: 0 <= i < |ds| ==> |ds[i].fingerprint| == 32
    ensures Typed(Many(DEP), L(Values(ds, DepValue))) && WriteEach(DEP, Values(ds, DepValue)) == DepBytes(ds)
  {
    if ds != [] {
      var d := ds[0];
      TextBytes(d.name);
      TextBytes(d.versionConstraint);
      assert Write(DEP, DepValue(d)) == Short(d.name) + (Short(d.versionConstraint) + d.fingerprint);
      DepsAre(ds[1..]);
      assert Values(ds, DepValue)[1..] == Values(ds[1..], DepValue);
      assert Short(d.name) + (Short(d.versionConstraint) + d.fingerprint) == Short(d.name) + Short(d.versionConstraint) + d.fingerprint;
    }
  }

  lemma {:induction false} LibsAre(ls: seq<ForeignLib>)
    ensures Typed(Many(LIB), L(Values(ls, LibValue))) && WriteEach(LIB, Values(ls, LibValue)) == LibBytes(ls)
  {
    if ls != [] {
      var l := ls[0];
      TextBytes(l.logical);
      TextBytes(l.platform);
      TextBytes(l.file);
      assert Write(LIB, LibValue(l)) == Short(l.logical) + (Short(l.platform) + Short(l.file));
      LibsAre(ls[1..]);
      assert Values(ls, LibValue)[1..] == Values(ls[1..], LibValue);
      assert Short(l.logical) + (Short(l.platform) + Short(l.file)) == Short(l.logical) + Short(l.platform) + Short(l.file);
    }
  }

  lemma NamesAre(b: Bundle)
    ensures Typed(NAMES, NamesValue(b)) && Write(NAMES, NamesValue(b)) == NamesBytes(b)
    ensures Typed(SECTIONS, SectionsValue(b)) && Write(SECTIONS, SectionsValue(b)) == SectionsBytes(b)
  {
    TextBytes(b.name);
    TextBytes(b.version);
    TextBytes(b.producer);
    TextBytes(b.polh);
    TextBytes(b.code);
    TextBytes(b.pir);
    assert Short(b.name) + (Short(b.version) + Short(b.producer)) == NamesBytes(b);
    assert Long(b.polh) + (Long(b.code) + Long(b.pir)) == SectionsBytes(b);
  }

  lemma ListsAre(b: Bundle)
    requires b.Sized()
    ensures Typed(LISTS, ListsValue(b)) && Write(LISTS, ListsValue(b)) == ListsBytes(b)
  {
    hide Little;
    DepsAre(b.deps);
    ShortsAre(b.capabilities);
    ShortsAre(b.vtableSlots);
    LibsAre(b.foreignLibs);
    LittleTwo(|b.deps|);
    LittleTwo(|b.capabilities|);
    LittleTwo(|b.vtableSlots|);
    LittleTwo(|b.foreignLibs|);
    var w, x := Two(|b.deps|) + DepBytes(b.deps), Two(|b.capabilities|) + Shorts(b.capabilities);
    var y, z := Two(|b.vtableSlots|) + Shorts(b.vtableSlots), Two(|b.foreignLibs|) + LibBytes(b.foreignLibs);
    assert w + (x + (y + z)) == w + x + y + z;
  }

  lemma HeaderIs(b: Bundle)
    requires b.Sized()
    ensures Typed(HEADER, HeaderValue(b)) && Write(HEADER, HeaderValue(b)) == Two(b.flags) + (Two(b.abiRevision) + b.fingerprint)
  {
    LittleTwo(b.flags);
    LittleTwo(b.abiRevision);
    hide Little, Two;
  }

  /** Two parts in a row. */
  lemma PairIs(f1: Layout, f2: Layout, v: Value)
    requires v.P? && Typed(f1, v.first) && Typed(f2, v.second)
    ensures Typed(Both(f1, f2), v) && Write(Both(f1, f2), v) == Write(f1, v.first) + Write(f2, v.second)
  {
  }

  lemma FileIs(b: Bundle)
    requires b.Sized()
    ensures Typed(FILE, FileValue(b))
    ensures Write(FILE, FileValue(b)) ==
      Two(b.flags) + (Two(b.abiRevision) + b.fingerprint) + (NamesBytes(b) + (SectionsBytes(b) + ListsBytes(b)))
  {
    hide Little, Values, Write, Typed, NamesBytes, SectionsBytes, ListsBytes, HeaderValue, NamesValue, SectionsValue, ListsValue, Two;
    HeaderIs(b);
    NamesAre(b);
    ListsAre(b);
    var v := FileValue(b);
    PairIs(SECTIONS, LISTS, v.second.second);
    PairIs(NAMES, Both(SECTIONS, LISTS), v.second);
    PairIs(HEADER, BODY, v);
  }

  const LETTERS: Bytes := [0x50, 0x4F, 0x4C, 0x42]

  lemma PrefixIs()
    ensures PREFIX == LETTERS + [4, 0]
  {
    LittleTwo(FORMAT_VERSION);
  }

  /** A container is the letters POLB, the format version 4, the flags and the revision, the fingerprint,
      three names, three sections and four counted lists, in this order. */
  lemma ContainerSpells(b: Bundle)
    requires b.Sized()
    ensures Container(b) ==
      LETTERS + [4, 0] + Two(b.flags) + Two(b.abiRevision) + b.fingerprint
      + NamesBytes(b) + SectionsBytes(b) + ListsBytes(b)
  {
    hide Little, Values, Write, Typed, NamesBytes, SectionsBytes, ListsBytes, FileValue, Two;
    FileIs(b);
    PrefixIs();
    Flat(LETTERS + [4, 0], Two(b.flags), Two(b.abiRevision), b.fingerprint, NamesBytes(b), SectionsBytes(b), ListsBytes(b));
  }

  lemma Flat(m: Bytes, f: Bytes, a: Bytes, p: Bytes, n: Bytes, s: Bytes, l: Bytes)
    ensures m + (f + (a + p) + (n + (s + l))) == m + f + a + p + n + s + l
  {
  }

  /** The fixed part by its offsets. */
  lemma FixedOffsets(b: Bundle)
    requires b.Sized()
    ensures
      var c := Container(b);
      && |c| >= 42 && c[..4] == LETTERS && c[4..6] == [4, 0]
      && c[6..8] == Two(b.flags) && c[8..10] == Two(b.abiRevision) && c[10..42] == b.fingerprint
  {
    ContainerSpells(b);
    Offsets(Container(b), LETTERS, [4, 0], Two(b.flags), Two(b.abiRevision), b.fingerprint,
            NamesBytes(b), SectionsBytes(b), ListsBytes(b));
  }

  lemma Offsets(c: Bytes, m: Bytes, v: Bytes, f: Bytes, a: Bytes, p: Bytes, n: Bytes, s: Bytes, l: Bytes)
    requires |m| == 4 && |v| == |f| == |a| == 2 && |p| == 32 && c == m + v + f + a + p + n + s + l
    ensures |c| >= 42 && c[..4] == m && c[4..6] == v && c[6..8] == f && c[8..10] == a && c[10..42] == p
  {
    var rest := n + s + l;
    assert c == m + v + f + a + p + rest;
  }
}
