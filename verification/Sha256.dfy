/**
 SHA-256 as a streaming machine, against FIPS 180-4.

 `Digest` is the standard's: pad (section 5.1.1), cut into blocks (5.2.1), start from the
 initial value (5.3.3) and run the compression of section 6.2.2 over the blocks. The class
 buffers whatever pieces it is given and compresses in place.
 */
module Sha256 {
  import opened BlockStream

  type Byte = bv8
  type Word = bv32

  const TWO64: nat := 0x1_0000_0000_0000_0000
  const TWO61: nat := 0x2000_0000_0000_0000

  // ---- FIPS 180-4 ----

  function Rotr(x: Word, n: nat): Word
    requires 0 < n < 32
  {
    (x >> n) | (x << (32 - n))
  }

  function Ch(x: Word, y: Word, z: Word): Word { (x & y) ^ (!x & z) }
  function Maj(x: Word, y: Word, z: Word): Word { (x & y) ^ (x & z) ^ (y & z) }
  function BigSigma0(x: Word): Word { Rotr(x, 2) ^ Rotr(x, 13) ^ Rotr(x, 22) }
  function BigSigma1(x: Word): Word { Rotr(x, 6) ^ Rotr(x, 11) ^ Rotr(x, 25) }
  function SmallSigma0(x: Word): Word { Rotr(x, 7) ^ Rotr(x, 18) ^ (x >> 3) }
  function SmallSigma1(x: Word): Word { Rotr(x, 17) ^ Rotr(x, 19) ^ (x >> 10) }

  /** Section 4.2.2. */
  const K0: seq<Word> := [0x428a2f98, 0x71374491, 0xb5c0fbcf, 0xe9b5dba5, 0x3956c25b, 0x59f111f1, 0x923f82a4, 0xab1c5ed5]
  const K1: seq<Word> := [0xd807aa98, 0x12835b01, 0x243185be, 0x550c7dc3, 0x72be5d74, 0x80deb1fe, 0x9bdc06a7, 0xc19bf174]
  const K2: seq<Word> := [0xe49b69c1, 0xefbe4786, 0x0fc19dc6, 0x240ca1cc, 0x2de92c6f, 0x4a7484aa, 0x5cb0a9dc, 0x76f988da]
  const K3: seq<Word> := [0x983e5152, 0xa831c66d, 0xb00327c8, 0xbf597fc7, 0xc6e00bf3, 0xd5a79147, 0x06ca6351, 0x14292967]
  const K4: seq<Word> := [0x27b70a85, 0x2e1b2138, 0x4d2c6dfc, 0x53380d13, 0x650a7354, 0x766a0abb, 0x81c2c92e, 0x92722c85]
  const K5: seq<Word> := [0xa2bfe8a1, 0xa81a664b, 0xc24b8b70, 0xc76c51a3, 0xd192e819, 0xd6990624, 0xf40e3585, 0x106aa070]
  const K6: seq<Word> := [0x19a4c116, 0x1e376c08, 0x2748774c, 0x34b0bcb5, 0x391c0cb3, 0x4ed8aa4a, 0x5b9cca4f, 0x682e6ff3]
  const K7: seq<Word> := [0x748f82ee, 0x78a5636f, 0x84c87814, 0x8cc70208, 0x90befffa, 0xa4506ceb, 0xbef9a3f7, 0xc67178f2]
  const K: seq<Word> := K0 + K1 + K2 + K3 + K4 + K5 + K6 + K7

  /** Eight words: a hash value, or the working variables of a block. */
  datatype Eight = Eight(a: Word, b: Word, c: Word, d: Word, e: Word, f: Word, g: Word, h: Word)

  /** Section 5.3.3. */
  const Initial := Eight(0x6a09e667, 0xbb67ae85, 0x3c6ef372, 0xa54ff53a, 0x510e527f, 0x9b05688c, 0x1f83d9ab, 0x5be0cd19)

  /** Addition modulo 2^32. */
  function Plus(x: Word, y: Word): Word { x + y }

  function Plus4(a: Word, b: Word, c: Word, d: Word): Word { a + b + c + d }
  function Plus5(a: Word, b: Word, c: Word, d: Word, e: Word): Word { a + b + c + d + e }

  function BigEndian(b0: Byte, b1: Byte, b2: Byte, b3: Byte): Word
  {
    ((b0 as Word) << 24) | ((b1 as Word) << 16) | ((b2 as Word) << 8) | (b3 as Word)
  }

  /** The message schedule, section 6.2.2 step 1. */
  function Schedule(block: seq<Byte>, t: nat): Word
    requires |block| == 64
  {
    if t < 16 then
      BigEndian(block[4 * t], block[4 * t + 1], block[4 * t + 2], block[4 * t + 3])
    else
      Plus4(SmallSigma1(Schedule(block, t - 2)), Schedule(block, t - 7), SmallSigma0(Schedule(block, t - 15)), Schedule(block, t - 16))
  }

  /** One round, section 6.2.2 step 3. */
  function Round(v: Eight, k: Word, w: Word): Eight
  {
    var t1 := Plus5(v.h, BigSigma1(v.e), Ch(v.e, v.f, v.g), k, w);
    var t2 := Plus(BigSigma0(v.a), Maj(v.a, v.b, v.c));
    Eight(Plus(t1, t2), v.a, v.b, v.c, Plus(v.d, t1), v.e, v.f, v.g)
  }

  function Rounds(hash: Eight, block: seq<Byte>, t: nat): Eight
    requires |block| == 64 && t <= 64
  {
    if t == 0 then hash else Round(Rounds(hash, block, t - 1), K[t - 1], Schedule(block, t - 1))
  }

  function PlusEach(x: Eight, y: Eight): Eight
  {
    Eight(Plus(x.a, y.a), Plus(x.b, y.b), Plus(x.c, y.c), Plus(x.d, y.d), Plus(x.e, y.e), Plus(x.f, y.f), Plus(x.g, y.g), Plus(x.h, y.h))
  }

  /** Section 6.2.2 step 4. */
  function Compress(hash: Eight, block: seq<Byte>): Eight
    requires |block| == 64
  {
    PlusEach(hash, Rounds(hash, block, 64))
  }

  /** `Compress`, made total; the fold only ever gives it whole blocks. */
  function CompressBlock(hash: Eight, block: seq<Byte>): Eight
  {
    if |block| == 64 then Compress(hash, block) else hash
  }

  /** The hash value after every whole block of `m`. */
  function HashBlocks(m: seq<Byte>): Eight
  {
    Fold(Initial, CompressBlock, m)
  }

  function Zeros(k: nat): seq<Byte> { seq(k, i => 0) }

  function LowByte(n: nat): Byte { (n % 256) as Byte }

  /** The low `k` bytes of a number, most significant first. */
  function LowBytes(n: nat, k: nat): seq<Byte>
    decreases k
  {
    if k == 0 then [] else LowBytes(n / 256, k - 1) + [LowByte(n)]
  }

  lemma LowBytesLength(n: nat, k: nat)
    ensures |LowBytes(n, k)| == k
    decreases k
  {
  }

  /** The number of zero bytes: the smallest that leaves eight bytes of a whole block. */
  function PadZeros(length: nat): (k: nat)
    ensures (length + 1 + k) % 64 == 56 && k < 64
  {
    var r := (length + 1) % 64;
    if r <= 56 then 56 - r else 120 - r
  }

  /** Section 5.1.1. */
  function Padded(m: seq<Byte>): seq<Byte>
    requires |m| < TWO61
  {
    m + [0x80] + Zeros(PadZeros(|m|)) + LowBytes(8 * |m|, 8)
  }

  function WordBytes(w: Word): seq<Byte>
  {
    [((w >> 24) & 0xFF) as Byte, ((w >> 16) & 0xFF) as Byte, ((w >> 8) & 0xFF) as Byte, (w & 0xFF) as Byte]
  }

  function HashBytes(v: Eight): seq<Byte>
  {
    WordBytes(v.a) + WordBytes(v.b) + WordBytes(v.c) + WordBytes(v.d) + WordBytes(v.e) + WordBytes(v.f) + WordBytes(v.g) + WordBytes(v.h)
  }

  function Digest(m: seq<Byte>): seq<Byte>
    requires |m| < TWO61
  {
    HashBytes(HashBlocks(Padded(m)))
  }

  // ---- the machine ----

  ghost function HashOf(h: seq<Word>): Eight
    requires |h| == 8
  {
    Eight(h[0], h[1], h[2], h[3], h[4], h[5], h[6], h[7])
  }

  /** The first `n` words of a hash value, written out. */
  ghost function FirstBytes(h: seq<Word>, n: nat): seq<Byte>
    requires n <= |h|
  {
    if n == 0 then [] else FirstBytes(h, n - 1) + WordBytes(h[n - 1])
  }

  class Hasher {
    const h: array<Word>
    const buf: array<Byte>
    var total: nat
    var bufLen: nat
    ghost var message: seq<Byte>      // every byte given so far

    ghost predicate Buffered()
      reads this, h, buf
    {
      && h.Length == 8 && buf.Length == 64
      && bufLen == |message| % 64
      && buf[..bufLen] == message[|message| - bufLen..]
      && HashOf(h[..]) == HashBlocks(message)
    }

    ghost predicate Valid()
      reads this, h, buf
    {
      Buffered() && total == |message| % TWO64
    }

    constructor ()
      ensures Valid() && message == [] && fresh(h) && fresh(buf)
    {
      hide Compress, Rounds, Round, Schedule, K;
      h := new Word[8] [0x6a09e667, 0xbb67ae85, 0x3c6ef372, 0xa54ff53a, 0x510e527f, 0x9b05688c, 0x1f83d9ab, 0x5be0cd19];
      buf := new Byte[64](i => 0);
      total, bufLen, message := 0, 0, [];
    }

    /** The 64 words of the message schedule. */
    static method Expand(p: seq<Byte>) returns (w: seq<Word>)
      requires |p| == 64
      ensures |w| == 64 && forall j :: 0 <= j < 64 ==> w[j] == Schedule(p, j)
    {
      hide SmallSigma0, SmallSigma1, BigEndian, Plus4;
      w := [];
      for i := 0 to 16
        invariant |w| == i && forall j :: 0 <= j < i ==> w[j] == Schedule(p, j)
      {
        w := w + [BigEndian(p[i * 4], p[i * 4 + 1], p[i * 4 + 2], p[i * 4 + 3])];
      }
      for i := 16 to 64
        invariant |w| == i && forall j :: 0 <= j < i ==> w[j] == Schedule(p, j)
      {
        var s0 := SmallSigma0(w[i - 15]);
        var s1 := SmallSigma1(w[i - 2]);
        SumOrder(w[i - 16], s0, w[i - 7], s1);
        w := w + [Plus4(w[i - 16], s0, w[i - 7], s1)];
      }
    }

    /** The 64 rounds, in place. */
    static method RunRounds(hash: seq<Word>, p: seq<Byte>, w: seq<Word>) returns (v: Eight)
      requires |hash| == 8 && |p| == 64 && |w| == 64 && forall j :: 0 <= j < 64 ==> w[j] == Schedule(p, j)
      ensures v == Rounds(HashOf(hash), p, 64)
    {
      hide BigSigma0, BigSigma1, Ch, Maj, Plus, Plus5, Schedule;
      var a, b, c, d, e, f, g, hh := hash[0], hash[1], hash[2], hash[3], hash[4], hash[5], hash[6], hash[7];
      for i := 0 to 64
        invariant Eight(a, b, c, d, e, f, g, hh) == Rounds(HashOf(hash), p, i)
      {
        var t1 := Plus5(hh, BigSigma1(e), Ch(e, f, g), K[i], w[i]);
        var t2 := Plus(BigSigma0(a), Maj(a, b, c));
        hh := g;
        g := f;
        f := e;
        e := Plus(d, t1);
        d := c;
        c := b;
        b := a;
        a := Plus(t1, t2);
      }
      v := Eight(a, b, c, d, e, f, g, hh);
    }

    /** Compress one block into the hash value. */
    method Block(p: seq<Byte>)
      requires h.Length == 8 && |p| == 64
      modifies h
      ensures HashOf(h[..]) == Compress(old(HashOf(h[..])), p)
    {
      hide Plus, Rounds;
      var w := Expand(p);
      var v := RunRounds(h[..], p, w);
      h[0] := Plus(h[0], v.a);
      h[1] := Plus(h[1], v.b);
      h[2] := Plus(h[2], v.c);
      h[3] := Plus(h[3], v.d);
      h[4] := Plus(h[4], v.e);
      h[5] := Plus(h[5], v.f);
      h[6] := Plus(h[6], v.g);
      h[7] := Plus(h[7], v.h);
    }

    /** Copy a piece that fits into the buffer, and compress the buffer when it is full. */
    method Absorb(piece: seq<Byte>)
      requires Buffered() && bufLen + |piece| <= 64
      modifies this`bufLen, this`message, h, buf
      ensures Buffered() && message == old(message) + piece
    {
      hide HashBlocks, Compress;
      ghost var before := message;
      message := before + piece;
      Fill(piece);
      if bufLen == 64 {
        assert buf[..] == buf[..64];
        WholeBlock(before, piece);
        Block(buf[..]);
        bufLen := 0;
      } else {
        PartBlock(before, piece);
      }
    }

    method Fill(piece: seq<Byte>)
      requires buf.Length == 64 && bufLen + |piece| <= 64
      modifies this`bufLen, buf
      ensures bufLen == old(bufLen) + |piece| && buf[..bufLen] == old(buf[..bufLen]) + piece
    {
      for i := 0 to |piece|
        invariant bufLen == old(bufLen) && buf[..bufLen + i] == old(buf[..bufLen]) + piece[..i]
      {
        buf[bufLen + i] := piece[i];
      }
      bufLen := bufLen + |piece|;
    }

    method Update(p: seq<Byte>)
      requires Valid()
      modifies this, h, buf
      ensures Valid() && message == old(message) + p
    {
      hide HashBlocks, HashOf;
      CounterWraps(|message|, |p|);
      total := (total + |p|) % TWO64;
      var at := 0;
      while at < |p|
        invariant at <= |p| && Buffered() && message == old(message) + p[..at]
        invariant total == (old(total) + |p|) % TWO64
      {
        var take := if |p| - at < 64 - bufLen then |p| - at else 64 - bufLen;
        assert p[..at] + p[at..at + take] == p[..at + take];
        Absorb(p[at..at + take]);
        at := at + take;
      }
      assert p[..at] == p;
    }

    /** The 64-bit length as bytes, by shifting. */
    static method LengthBytes(bits: nat) returns (r: seq<Byte>)
      ensures r == LowBytes(bits, 8)
    {
      hide LowByte;
      r := [];
      for i := 0 to 8
        invariant r == LowBytes(Shifted(bits, 8 - i), i)
      {
        r := r + [LowByte(Shifted(bits, 7 - i))];
      }
    }

    /** The bit 1 and as many zeros as bring the buffer to 56 bytes. */
    method PadZeroBytes()
      requires Valid()
      modifies this, h, buf
      ensures Valid() && message == old(message) + [0x80] + Zeros(PadZeros(|old(message)|))
    {
      hide HashBlocks, HashOf, PadZeros;
      ghost var m := message;
      Update([0x80]);
      ghost var zeros := 0;
      while bufLen != 56
        invariant Valid() && zeros <= PadZeros(|m|) && message == m + [0x80] + Zeros(zeros)
        decreases PadZeros(|m|) - zeros
      {
        assert |message| == |m| + 1 + zeros;
        assert zeros != PadZeros(|m|);
        Update([0]);
        zeros := zeros + 1;
      }
      assert |message| == |m| + 1 + zeros;
      PadIsUnique(|m|, zeros);
    }

    /** Append the bit 1, zeros and the length, section 5.1.1. */
    method Pad()
      requires Valid() && |message| < TWO61
      modifies this, h, buf
      ensures Valid() && message == Padded(old(message))
    {
      hide Buffered, LowBytes, Zeros;
      var bits := total * 8 % TWO64;
      assert bits == 8 * |message|;
      PadZeroBytes();
      var length := LengthBytes(bits);
      Update(length);
    }

    /** The hash value, most significant byte of each word first. */
    method Output() returns (out: seq<Byte>)
      requires h.Length == 8
      ensures out == HashBytes(HashOf(h[..]))
    {
      hide WordBytes;
      out := [];
      for i := 0 to 8
        invariant out == FirstBytes(h[..], i)
      {
        out := out + WordBytes(h[i]);
      }
      AllBytes(h[..]);
    }

    /** Pad, and answer with the digest of everything given. */
    method Final() returns (out: seq<Byte>)
      requires Valid() && |message| < TWO61
      modifies this, h, buf
      ensures out == Digest(old(message))
    {
      hide HashBlocks, HashOf, HashBytes, Padded;
      Pad();
      out := Output();
    }
  }

  /** `n` shifted right by `k` bytes. */
  function Shifted(n: nat, k: nat): nat
  {
    if k == 0 then n else Shifted(n, k - 1) / 256
  }

  lemma AllBytes(h: seq<Word>)
    requires |h| == 8
    ensures FirstBytes(h, 8) == HashBytes(HashOf(h))
  {
    hide WordBytes;
    assert FirstBytes(h, 1) == WordBytes(h[0]);
    assert FirstBytes(h, 3) == FirstBytes(h, 2) + WordBytes(h[2]);
    assert FirstBytes(h, 5) == FirstBytes(h, 4) + WordBytes(h[4]);
    assert FirstBytes(h, 7) == FirstBytes(h, 6) + WordBytes(h[6]);
  }

  lemma WholeBlock(m: seq<Byte>, x: seq<Byte>)
    requires |m| % 64 + |x| == 64
    ensures |m + x| % 64 == 0
    ensures HashBlocks(m + x) == Compress(HashBlocks(m), m[Whole(|m|)..] + x)
  {
    WholeOfFull(|m|, |x|);
    hide Fold, Compress;
    FoldFull(Initial, CompressBlock, m, x);
  }

  lemma PartBlock(m: seq<Byte>, x: seq<Byte>)
    requires |m| % 64 + |x| < 64
    ensures |m + x| % 64 == |m| % 64 + |x|
    ensures HashBlocks(m + x) == HashBlocks(m)
  {
    hide Fold, Compress;
    WholeOfShort(|m|, |x|);
    FoldShort(Initial, CompressBlock, m, x);
  }

  lemma CounterWraps(n: nat, k: nat)
    ensures (n % TWO64 + k) % TWO64 == (n + k) % TWO64
  {
  }

  /** Addition modulo 2^32 may be regrouped. */
  lemma SumOrder(a: Word, b: Word, c: Word, d: Word)
    ensures Plus4(a, b, c, d) == Plus4(d, c, b, a)
  {
  }

  lemma PadIsUnique(length: nat, k: nat)
    requires k <= PadZeros(length) && (length + 1 + k) % 64 == 56
    ensures k == PadZeros(length)
  {
  }

  function Joined(pieces: seq<seq<Byte>>): seq<Byte>
  {
    if pieces == [] then [] else Joined(pieces[..|pieces| - 1]) + pieces[|pieces| - 1]
  }

  /** However a message is cut into pieces, the answer is the standard's digest of the whole. */
  method HashPieces(pieces: seq<seq<Byte>>) returns (out: seq<Byte>)
    requires |Joined(pieces)| < TWO61
    ensures out == Digest(Joined(pieces))
  {
    var hasher := new Hasher();
    for i := 0 to |pieces|
      invariant fresh(hasher) && fresh(hasher.h) && fresh(hasher.buf)
      invariant hasher.Valid() && hasher.message == Joined(pieces[..i])
    {
      assert pieces[..i + 1][..i] == pieces[..i];
      hasher.Update(pieces[i]);
    }
    assert pieces[..|pieces|] == pieces;
    out := hasher.Final();
  }

  /** The fingerprint of a bundle's public interface. */
  method Fingerprint(publicApi: seq<Byte>) returns (out: seq<Byte>)
    requires |publicApi| < TWO61
    ensures out == Digest(publicApi)
  {
    var sha := new Hasher();
    sha.Update(publicApi);
    assert [] + publicApi == publicApi;
    out := sha.Final();
  }

  /** Padding fills whole blocks, keeps the message in front and stays within two more blocks. */
  lemma PaddingIsWhole(m: seq<Byte>)
    requires |m| < TWO61
    ensures |Padded(m)| % 64 == 0 && m <= Padded(m) && |m| + 9 <= |Padded(m)| <= |m| + 72
    ensures Padded(m)[|m|] == 0x80
    ensures forall i :: |m| < i < |Padded(m)| - 8 ==> Padded(m)[i] == 0
  {
    hide LowBytes, PadZeros;
    LowBytesLength(8 * |m|, 8);
    assert Padded(m)[..|m|] == m;
  }
}
