/**
 Binary layouts built from little-endian numbers, byte strings, pairs and counted lists, with
 the writer and the bounds-checked reader each layout stands for.

 The three theorems about them are proved once, for every layout: what is written reads back,
 reading looks at nothing behind what it consumed, and the cursor stays inside the buffer.
 */
module Layouts {
  newtype Byte = x: int | 0 <= x < 256

  datatype Layout =
    | Num(width: nat)                        // a little-endian number
    | Fixed(size: nat)                       // exactly this many bytes
    | Text(prefix: nat)                      // a length of `prefix` bytes, then that many bytes
    | Both(first: Layout, second: Layout)
    | Many(item: Layout)                     // a two-byte count, then the items

  datatype Value = N(n: nat) | T(s: seq<Byte>) | P(first: Value, second: Value) | L(items: seq<Value>)

  /** The reader's state: how far it has come, and whether every read so far was in bounds. */
  datatype Cursor = Cursor(pos: nat, ok: bool)

  // ---- numbers ----

  function Little(n: nat, width: nat): (r: seq<Byte>)
    ensures |r| == width
    decreases width
  {
    if width == 0 then [] else [(n % 256) as Byte] + Little(n / 256, width - 1)
  }

  function FromLittle(s: seq<Byte>): nat
  {
    if s == [] then 0 else s[0] as nat + 256 * FromLittle(s[1..])
  }

  function Limit(width: nat): (r: nat)
    ensures r > 0
  {
    if width == 0 then 1 else 256 * Limit(width - 1)
  }

  lemma {:induction false} LittleReadsBack(n: nat, width: nat)
    requires n < Limit(width)
    ensures FromLittle(Little(n, width)) == n
    decreases width
  {
    if width > 0 {
      LittleReadsBack(n / 256, width - 1);
    }
  }

  lemma {:induction false} FromLittleFits(s: seq<Byte>)
    ensures FromLittle(s) < Limit(|s|)
  {
    if s != [] {
      FromLittleFits(s[1..]);
    }
  }

  // ---- layouts ----

  /** `v` has the form of the layout. */
  predicate Typed(f: Layout, v: Value)
    decreases f, 0
  {
    match f
    case Num(_) => v.N?
    case Fixed(size) => v.T? && |v.s| == size
    case Text(_) => v.T?
    case Both(a, b) => v.P? && Typed(a, v.first) && Typed(b, v.second)
    case Many(item) => v.L? && forall i :: 0 <= i < |v.items| ==> Typed(item, v.items[i])
  }

  /** Every number, length and count of `v` fits the bytes the layout gives it. */
  predicate Fits(f: Layout, v: Value)
    decreases f, 0
  {
    match f
    case Num(width) => v.N? && v.n < Limit(width)
    case Fixed(size) => v.T? && |v.s| == size
    case Text(prefix) => v.T? && |v.s| < Limit(prefix)
    case Both(a, b) => v.P? && Fits(a, v.first) && Fits(b, v.second)
    case Many(item) => v.L? && |v.items| < Limit(2) && forall i :: 0 <= i < |v.items| ==> Fits(item, v.items[i])
  }

  /** The bytes of a value; a length too large for its prefix is cut to the prefix's width. */
  function Write(f: Layout, v: Value): seq<Byte>
    requires Typed(f, v)
    decreases f, 0
  {
    match f
    case Num(width) => Little(v.n, width)
    case Fixed(_) => v.s
    case Text(prefix) => Little(|v.s|, prefix) + v.s
    case Both(a, b) => Write(a, v.first) + Write(b, v.second)
    case Many(item) => Little(|v.items|, 2) + WriteEach(item, v.items)
  }

  function WriteEach(item: Layout, vs: seq<Value>): seq<Byte>
    requires forall i :: 0 <= i < |vs| ==> Typed(item, vs[i])
    decreases item, |vs| + 1
  {
    if vs == [] then [] else Write(item, vs[0]) + WriteEach(item, vs[1..])
  }

  lemma WriteManyIs(item: Layout, vs: seq<Value>)
    requires Typed(Many(item), L(vs))
    ensures WriteEach(item, []) == []
    ensures forall i :: 0 <= i < |vs| ==> Typed(item, vs[i])
    ensures Write(Many(item), L(vs)) == Little(|vs|, 2) + WriteEach(item, vs)
  {
  }

  lemma {:induction false} WriteOneMore(item: Layout, vs: seq<Value>, x: Value)
    requires forall i :: 0 <= i < |vs| ==> Typed(item, vs[i])
    requires Typed(item, x)
    ensures forall i :: 0 <= i < |vs + [x]| ==> Typed(item, (vs + [x])[i])
    ensures WriteEach(item, vs + [x]) == WriteEach(item, vs) + Write(item, x)
    decreases |vs|
  {
    if vs != [] {
      WriteOneMore(item, vs[1..], x);
      assert (vs + [x])[1..] == vs[1..] + [x];
    }
  }

  /** `size` bytes at the cursor, or a failed cursor that has not moved. */
  function ReadBytes(b: seq<Byte>, c: Cursor, size: nat): (seq<Byte>, Cursor)
  {
    if c.pos + size > |b| then ([], c.(ok := false))
    else (b[c.pos..c.pos + size], c.(pos := c.pos + size))
  }

  function ReadNum(b: seq<Byte>, c: Cursor, width: nat): (nat, Cursor)
  {
    var (s, d) := ReadBytes(b, c, width);
    (FromLittle(s), d)
  }

  function Read(f: Layout, b: seq<Byte>, c: Cursor): (Value, Cursor)
    decreases f, 0
  {
    match f
    case Num(width) =>
      var (n, d) := ReadNum(b, c, width);
      (N(n), d)
    case Fixed(size) =>
      var (s, d) := ReadBytes(b, c, size);
      (T(s), d)
    case Text(prefix) =>
      var (n, d) := ReadNum(b, c, prefix);
      var (s, e) := ReadBytes(b, d, n);
      (T(s), e)
    case Both(f1, f2) =>
      var (x, d) := Read(f1, b, c);
      var (y, e) := Read(f2, b, d);
      (P(x, y), e)
    case Many(item) =>
      var (n, d) := ReadNum(b, c, 2);
      var (vs, e) := ReadEach(item, n, b, d);
      (L(vs), e)
  }

  /** Up to `n` items; reading stops at the first failure. */
  function ReadEach(item: Layout, n: nat, b: seq<Byte>, c: Cursor): (seq<Value>, Cursor)
    decreases item, n + 1
  {
    if n == 0 || !c.ok then ([], c)
    else
      var (x, d) := Read(item, b, c);
      var (xs, e) := ReadEach(item, n - 1, b, d);
      ([x] + xs, e)
  }

  // ---- the cursor ----

  ghost predicate Moves(b: seq<Byte>, c: Cursor, d: Cursor)
  {
    c.pos <= d.pos <= |b| && (d.ok ==> c.ok)
  }

  /** The cursor never passes the end, never goes back, and a failed read is never forgiven. */
  lemma {:induction false} ReadMoves(f: Layout, b: seq<Byte>, c: Cursor)
    requires c.pos <= |b|
    ensures Moves(b, c, Read(f, b, c).1)
    decreases f, 0
  {
    match f
    case Num(_) =>
    case Fixed(_) =>
    case Text(_) =>
    case Both(f1, f2) =>
      ReadMoves(f1, b, c);
      ReadMoves(f2, b, Read(f1, b, c).1);
    case Many(item) =>
      var (n, d) := ReadNum(b, c, 2);
      ReadEachMoves(item, n, b, d);
  }

  lemma {:induction false} ReadEachMoves(item: Layout, n: nat, b: seq<Byte>, c: Cursor)
    requires c.pos <= |b|
    ensures Moves(b, c, ReadEach(item, n, b, c).1)
    decreases item, n + 1
  {
    if n != 0 && c.ok {
      ReadMoves(item, b, c);
      ReadEachMoves(item, n - 1, b, Read(item, b, c).1);
    }
  }

  // ---- reading looks at nothing behind what it consumed ----

  lemma {:induction false} ReadExtends(f: Layout, b: seq<Byte>, x: seq<Byte>, c: Cursor)
    requires c.pos <= |b| && Read(f, b, c).1.ok
    ensures Read(f, b + x, c) == Read(f, b, c)
    decreases f, 0
  {
    match f
    case Num(width) => BytesExtend(b, x, c, width);
    case Fixed(size) => BytesExtend(b, x, c, size);
    case Text(prefix) =>
      var (n, d) := ReadNum(b, c, prefix);
      BytesExtend(b, x, c, prefix);
      BytesExtend(b, x, d, n);
    case Both(f1, f2) =>
      var d := Read(f1, b, c).1;
      ReadMoves(f1, b, c);
      ReadMoves(f2, b, d);
      ReadExtends(f1, b, x, c);
      ReadExtends(f2, b, x, d);
    case Many(item) =>
      var (n, d) := ReadNum(b, c, 2);
      ReadEachMoves(item, n, b, d);
      BytesExtend(b, x, c, 2);
      ReadEachExtends(item, n, b, x, d);
  }

  lemma BytesExtend(b: seq<Byte>, x: seq<Byte>, c: Cursor, size: nat)
    requires ReadBytes(b, c, size).1.ok
    ensures ReadBytes(b + x, c, size) == ReadBytes(b, c, size)
  {
    assert c.pos + size <= |b| ==> (b + x)[c.pos..c.pos + size] == b[c.pos..c.pos + size];
  }

  lemma {:induction false} ReadEachExtends(item: Layout, n: nat, b: seq<Byte>, x: seq<Byte>, c: Cursor)
    requires c.pos <= |b| && ReadEach(item, n, b, c).1.ok
    ensures ReadEach(item, n, b + x, c) == ReadEach(item, n, b, c)
    decreases item, n + 1
  {
    if n != 0 && c.ok {
      var d := Read(item, b, c).1;
      ReadMoves(item, b, c);
      ReadEachMoves(item, n - 1, b, d);
      ReadExtends(item, b, x, c);
      ReadEachExtends(item, n - 1, b, x, d);
    }
  }

  // ---- what is written reads back ----

  /** The bytes `w`, wherever they stand, read as `v` and are consumed exactly. */
  ghost predicate ReadsTo(f: Layout, v: Value, w: seq<Byte>, before: seq<Byte>, after: seq<Byte>)
  {
    Read(f, before + w + after, Cursor(|before|, true)) == (v, Cursor(|before| + |w|, true))
  }

  ghost predicate EachReadsTo(item: Layout, vs: seq<Value>, w: seq<Byte>, before: seq<Byte>, after: seq<Byte>)
  {
    ReadEach(item, |vs|, before + w + after, Cursor(|before|, true)) == (vs, Cursor(|before| + |w|, true))
  }

  lemma {:induction false} ReadsBack(f: Layout, v: Value, before: seq<Byte>, after: seq<Byte>)
    requires Typed(f, v) && Fits(f, v)
    ensures ReadsTo(f, v, Write(f, v), before, after)
    decreases f, 0
  {
    hide Limit;
    match f
    case Num(width) =>
      BytesReadBack(before, Little(v.n, width), after);
      LittleReadsBack(v.n, width);
    case Fixed(_) =>
      BytesReadBack(before, v.s, after);
    case Text(prefix) =>
      TextReadsBack(prefix, v.s, before, after);
    case Both(f1, f2) =>
      var w1, w2 := Write(f1, v.first), Write(f2, v.second);
      ReadsBack(f1, v.first, before, w2 + after);
      ReadsBack(f2, v.second, before + w1, after);
      BothReadsBack(f1, f2, v.first, v.second, w1, w2, before, after);
    case Many(item) =>
      var count, each := Little(|v.items|, 2), WriteEach(item, v.items);
      EachReadsBack(item, v.items, before + count, after);
      ManyReadsBack(item, v.items, each, before, after);
  }

  lemma BothReadsBack(f1: Layout, f2: Layout, v1: Value, v2: Value, w1: seq<Byte>, w2: seq<Byte>, before: seq<Byte>, after: seq<Byte>)
    requires ReadsTo(f1, v1, w1, before, w2 + after) && ReadsTo(f2, v2, w2, before + w1, after)
    ensures ReadsTo(Both(f1, f2), P(v1, v2), w1 + w2, before, after)
  {
    RegroupAround(before, w1, w2, after);
  }

  lemma ManyReadsBack(item: Layout, vs: seq<Value>, each: seq<Byte>, before: seq<Byte>, after: seq<Byte>)
    requires |vs| < Limit(2) && EachReadsTo(item, vs, each, before + Little(|vs|, 2), after)
    ensures ReadsTo(Many(item), L(vs), Little(|vs|, 2) + each, before, after)
  {
    hide Little, FromLittle, Limit, ReadEach;
    var count := Little(|vs|, 2);
    var b := before + (count + each) + after;
    RegroupAround(before, count, each, after);
    BytesReadBack(before, count, each + after);
    LittleReadsBack(|vs|, 2);
    assert ReadNum(b, Cursor(|before|, true), 2) == (|vs|, Cursor(|before| + 2, true));
    assert ReadEach(item, |vs|, b, Cursor(|before| + 2, true)) == (vs, Cursor(|before| + 2 + |each|, true));
  }

  lemma NextReadsBack(item: Layout, x: Value, xs: seq<Value>, w: seq<Byte>, each: seq<Byte>, before: seq<Byte>, after: seq<Byte>)
    requires ReadsTo(item, x, w, before, each + after) && EachReadsTo(item, xs, each, before + w, after)
    ensures EachReadsTo(item, [x] + xs, w + each, before, after)
  {
    RegroupAround(before, w, each, after);
  }

  lemma RegroupAround(a: seq<Byte>, b: seq<Byte>, c: seq<Byte>, d: seq<Byte>)
    ensures a + (b + c) + d == a + b + (c + d)
    ensures a + (b + c) + d == a + b + c + d
  {
  }

  lemma TextReadsBack(prefix: nat, s: seq<Byte>, before: seq<Byte>, after: seq<Byte>)
    requires |s| < Limit(prefix)
    ensures ReadsTo(Text(prefix), T(s), Little(|s|, prefix) + s, before, after)
  {
    var length := Little(|s|, prefix);
    RegroupAround(before, length, s, after);
    BytesReadBack(before, length, s + after);
    LittleReadsBack(|s|, prefix);
    BytesReadBack(before + length, s, after);
  }

  lemma BytesReadBack(before: seq<Byte>, s: seq<Byte>, after: seq<Byte>)
    ensures ReadBytes(before + s + after, Cursor(|before|, true), |s|) == (s, Cursor(|before| + |s|, true))
  {
    assert (before + s + after)[|before|..|before| + |s|] == s;
  }

  lemma {:induction false} EachReadsBack(item: Layout, vs: seq<Value>, before: seq<Byte>, after: seq<Byte>)
    requires forall i :: 0 <= i < |vs| ==> Typed(item, vs[i]) && Fits(item, vs[i])
    ensures EachReadsTo(item, vs, WriteEach(item, vs), before, after)
    decreases item, |vs| + 1
  {
    if vs != [] {
      var w, each := Write(item, vs[0]), WriteEach(item, vs[1..]);
      ReadsBack(item, vs[0], before, each + after);
      EachReadsBack(item, vs[1..], before + w, after);
      NextReadsBack(item, vs[0], vs[1..], w, each, before, after);
      assert [vs[0]] + vs[1..] == vs;
    }
  }

  /** Whatever a successful read returns fits the layout. */
  lemma {:induction false} ReadFits(f: Layout, b: seq<Byte>, c: Cursor)
    requires c.pos <= |b| && Read(f, b, c).1.ok
    ensures Fits(f, Read(f, b, c).0)
    decreases f, 0
  {
    match f
    case Num(width) => FromLittleFits(ReadBytes(b, c, width).0);
    case Fixed(_) =>
    case Text(prefix) => FromLittleFits(ReadBytes(b, c, prefix).0);
    case Both(f1, f2) =>
      var d := Read(f1, b, c).1;
      ReadMoves(f1, b, c);
      ReadMoves(f2, b, d);
      ReadFits(f1, b, c);
      ReadFits(f2, b, d);
    case Many(item) =>
      var (n, d) := ReadNum(b, c, 2);
      FromLittleFits(ReadBytes(b, c, 2).0);
      ReadEachMoves(item, n, b, d);
      ReadEachFits(item, n, b, d);
  }

  lemma {:induction false} ReadEachFits(item: Layout, n: nat, b: seq<Byte>, c: Cursor)
    requires c.pos <= |b| && ReadEach(item, n, b, c).1.ok
    ensures var vs := ReadEach(item, n, b, c).0;
            |vs| <= n && forall i :: 0 <= i < |vs| ==> Fits(item, vs[i])
    decreases item, n + 1
  {
    if n != 0 && c.ok {
      var d := Read(item, b, c).1;
      ReadMoves(item, b, c);
      ReadEachMoves(item, n - 1, b, d);
      ReadFits(item, b, c);
      ReadEachFits(item, n - 1, b, d);
    }
  }

  /** What reading up to `n` items means once the first `i` have been read. */
  lemma ReadOneMore(item: Layout, n: nat, b: seq<Byte>, c: Cursor)
    requires n > 0 && c.ok
    ensures ReadEach(item, n, b, c).0 == [Read(item, b, c).0] + ReadEach(item, n - 1, b, Read(item, b, c).1).0
    ensures ReadEach(item, n, b, c).1 == ReadEach(item, n - 1, b, Read(item, b, c).1).1
  {
  }

  lemma ReadPairIs(f1: Layout, f2: Layout, b: seq<Byte>, c: Cursor)
    ensures
      var (x, d) := Read(f1, b, c);
      var (y, e) := Read(f2, b, d);
      Read(Both(f1, f2), b, c) == (P(x, y), e)
  {
  }

  lemma ReadFixedIs(size: nat, b: seq<Byte>, c: Cursor)
    ensures
      var (s, d) := ReadBytes(b, c, size);
      Read(Fixed(size), b, c) == (T(s), d)
  {
  }

  lemma ReadManyIs(item: Layout, b: seq<Byte>, c: Cursor)
    ensures
      var (n, d) := ReadNum(b, c, 2);
      var (vs, e) := ReadEach(item, n, b, d);
      Read(Many(item), b, c) == (L(vs), e)
  {
  }

  /** One more byte at the high end of a little-endian number. */
  lemma {:induction false} FromLittleAppend(s: seq<Byte>, x: Byte)
    ensures FromLittle(s + [x]) == FromLittle(s) + Limit(|s|) * x as nat
  {
    if s != [] {
      FromLittleAppend(s[1..], x);
      assert (s + [x])[1..] == s[1..] + [x];
    }
  }
}
