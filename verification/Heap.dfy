/**
 The heap core: size classes, free lists threaded through dead payloads, a bump slab per
 thread, stamped headers and per-thread accounting.

 Memory is modelled in words of eight bytes. A block is a two-word header followed by its
 payload; the first payload word of a freed pooled block is its free-list link. Free lists,
 slab cursors and counters belong to a thread; the memory is shared, and any thread may free
 what another allocated. The backend hands out blocks of memory that nothing else uses.
 */
module Heap {
  import opened Totals

  const MAGIC: int := 0x4C44503341313142
  const FREED: int := 0x4C44503346524545
  const REGION_LIVE: int := 0x4C4450335247314E
  const REGION_FREED: int := 0x4C4450335246524E
  const SLAB_WORDS: nat := 131072   // one mebibyte
  const POOL_MAX: nat := 512        // bytes; above this a block has its own allocation
  const NCLASSES: nat := 32
  const LARGE: nat := 0xFFFFFFFF
  const TWO32: nat := 0x1_0000_0000

  /** The second header word packs two 32-bit fields. */
  datatype Word = Num(v: int) | Meta(cls: nat, pad: nat)

  /** What one thread keeps to itself. Index `NCLASSES` of `classes` counts the large blocks. */
  datatype Tls = Tls(free: seq<int>, cur: int, end: int, bytes: int, count: int, classes: seq<int>)

  /** A block the allocator has laid out: its class, payload size in words, and enclosing slab. */
  datatype Block = Block(cls: nat, words: nat, slab: int)

  /** What the accounting holds against a live block. */
  datatype Live = Live(cls: nat, bytes: nat)

  /**
   `mem` and `tls` are the program's state. The rest is what the invariant is stated with:
   the blocks laid out by header address, the slabs, the contents of every free list bottom
   first, where each freed payload is listed, the live blocks, and how far the byte counters
   have drifted from the recorded sizes.
   */
  datatype H = H(mem: map<int, Word>, tls: seq<Tls>, blocks: map<int, Block>, slabs: set<int>,
                 stacks: seq<seq<seq<int>>>, pos: map<int, (nat, nat)>, live: map<int, Live>, drift: int)

  function Load(m: map<int, Word>, a: int): Word
  {
    if a in m then m[a] else Num(0)
  }

  function LoadNum(m: map<int, Word>, a: int): int
  {
    match Load(m, a) case Num(v) => v case Meta(_, _) => 0
  }

  function ClassOf(size: nat): (c: nat)
    requires 0 < size <= POOL_MAX
    ensures c < NCLASSES && size <= ClassBytes(c) < size + 16
  {
    (size + 15) / 16 - 1
  }

  function ClassBytes(c: nat): nat { (c + 1) * 16 }
  function ClassWords(c: nat): nat { 2 * (c + 1) }
  function BytesToWords(n: nat): nat { (n + 7) / 8 }

  function End(b: int, k: Block): int { b + 2 + k.words }
  function Bucket(cls: nat): (r: nat) ensures r <= NCLASSES { if cls < NCLASSES then cls else NCLASSES }

  // ---- the invariant ----

  /** Blocks and slabs lie apart, and every pooled block lies inside its slab, 16 bytes aligned. */
  ghost predicate Layout(blocks: map<int, Block>, slabs: set<int>)
  {
    && (forall b :: b in blocks ==> 0 < b && BlockOk(slabs, b, blocks[b]))
    && (forall b, c :: b in blocks && c in blocks && b < c ==> End(b, blocks[b]) <= c)
    && (forall s :: s in slabs ==> 0 < s)
    && (forall s, t :: s in slabs && t in slabs && s < t ==> s + SLAB_WORDS <= t)
    && (forall b, s :: b in blocks && blocks[b].cls == LARGE && s in slabs ==> Beside(b, End(b, blocks[b]), s))
  }

  ghost predicate BlockOk(slabs: set<int>, b: int, k: Block)
  {
    if k.cls == LARGE then
      k.slab == b
    else
      && k.cls < NCLASSES && k.words == ClassWords(k.cls) && k.slab in slabs
      && k.slab <= b && End(b, k) <= k.slab + SLAB_WORDS && (b - k.slab) % 2 == 0
  }

  ghost predicate Beside(lo: int, hi: int, s: int)
  {
    hi <= s || s + SLAB_WORDS <= lo
  }

  /** The part of a slab a thread has not laid out yet holds no block and no other thread's part. */
  ghost predicate Tails(tls: seq<Tls>, blocks: map<int, Block>, slabs: set<int>)
  {
    && (forall t :: 0 <= t < |tls| ==> TailOk(tls[t].cur, tls[t].end, blocks, slabs))
    && (forall t, u :: 0 <= t < u < |tls| && tls[t].cur != 0 && tls[u].cur != 0 ==> tls[t].end != tls[u].end)
  }

  ghost predicate TailOk(cur: int, end: int, blocks: map<int, Block>, slabs: set<int>)
  {
    cur != 0 ==>
      var s := end - SLAB_WORDS;
      && s in slabs && s <= cur <= end && (cur - s) % 2 == 0
      && forall b :: b in blocks ==> End(b, blocks[b]) <= cur || end <= b
  }

  /** Every header is intact: live blocks carry the live stamp, freed pooled blocks the freed one. */
  ghost predicate Stamps(mem: map<int, Word>, blocks: map<int, Block>, live: map<int, Live>)
  {
    && live.Keys <= blocks.Keys
    && forall b :: b in blocks ==> StampOk(mem, live, b, blocks[b])
  }

  ghost predicate StampOk(mem: map<int, Word>, live: map<int, Live>, b: int, k: Block)
  {
    && Load(mem, b) == Num(if b in live then MAGIC else FREED)
    && Load(mem, b + 1).Meta? && Load(mem, b + 1).cls == k.cls
    && (b in live ==> live[b] == Live(k.cls, if k.cls == LARGE then Load(mem, b + 1).pad else ClassBytes(k.cls)))
    && (k.cls == LARGE ==> b in live)
  }

  ghost predicate Shape(tls: seq<Tls>, stacks: seq<seq<seq<int>>>)
  {
    && |stacks| == |tls|
    && forall t :: 0 <= t < |tls| ==>
      |tls[t].free| == NCLASSES && |stacks[t]| == NCLASSES && |tls[t].classes| == NCLASSES + 1
  }

  ghost function Top(st: seq<int>): int { if st == [] then 0 else st[|st| - 1] }

  /** The list heads are the tops of the recorded lists. */
  ghost predicate Heads(tls: seq<Tls>, stacks: seq<seq<seq<int>>>)
    requires Shape(tls, stacks)
  {
    forall t, c :: 0 <= t < |tls| && 0 <= c < NCLASSES ==> tls[t].free[c] == Top(stacks[t][c])
  }

  /** The links spell out the recorded lists: null-terminated, no repeats, and made of exactly
      the freed blocks of their class. */
  ghost predicate Lists(mem: map<int, Word>, blocks: map<int, Block>, live: map<int, Live>,
                        stacks: seq<seq<seq<int>>>, pos: map<int, (nat, nat)>)
  {
    && (forall t :: 0 <= t < |stacks| ==> |stacks[t]| == NCLASSES)
    && (forall t, c, i :: 0 <= t < |stacks| && 0 <= c < NCLASSES && 0 <= i < |stacks[t][c]| ==>
          NodeOk(mem, blocks, live, pos, t, c, i, stacks[t][c]))
    && (forall b :: b in blocks && b !in live ==> Listed(stacks, pos, b, blocks[b].cls))
  }

  ghost predicate NodeOk(mem: map<int, Word>, blocks: map<int, Block>, live: map<int, Live>,
                         pos: map<int, (nat, nat)>, t: int, c: int, i: int, st: seq<int>)
    requires 0 <= i < |st|
  {
    var p := st[i];
    && p - 2 in blocks && p - 2 !in live && blocks[p - 2].cls == c
    && p in pos && pos[p] == (t, i)
    && Load(mem, p) == Num(if i == 0 then 0 else st[i - 1])
  }

  ghost predicate Listed(stacks: seq<seq<seq<int>>>, pos: map<int, (nat, nat)>, b: int, c: nat)
  {
    && c < NCLASSES && b + 2 in pos
    && pos[b + 2].0 < |stacks| && c < |stacks[pos[b + 2].0]|
    && pos[b + 2].1 < |stacks[pos[b + 2].0][c]|
    && stacks[pos[b + 2].0][c][pos[b + 2].1] == b + 2
  }

  ghost function CountOf(x: Tls): int { x.count }
  ghost function BytesOf(x: Tls): int { x.bytes }

  /** Summed over the threads, the counters describe the live blocks. */
  ghost predicate Accounts(h: H)
  {
    && Shape(h.tls, h.stacks)
    && Sum(h.tls, CountOf) == |h.live|
    && (forall k :: 0 <= k <= NCLASSES ==> SumClass(h.tls, k) == |InBucket(h.live, k)|)
    && Sum(h.tls, BytesOf) == TotalBytes(h.live) + h.drift
  }

  ghost function SumClass(tls: seq<Tls>, k: nat): int
    requires k <= NCLASSES && forall t :: 0 <= t < |tls| ==> |tls[t].classes| == NCLASSES + 1
  {
    if tls == [] then 0 else SumClass(tls[..|tls| - 1], k) + tls[|tls| - 1].classes[k]
  }

  ghost function InBucket(live: map<int, Live>, k: nat): set<int>
  {
    set b | b in live && Bucket(live[b].cls) == k
  }

  ghost function RecordedBytes(x: Live): int { x.bytes }
  ghost function TotalBytes(live: map<int, Live>): int { SumMap(live, RecordedBytes) }

  ghost predicate Separate(h: H)
  {
    && Layout(h.blocks, h.slabs) && Tails(h.tls, h.blocks, h.slabs)
    && Stamps(h.mem, h.blocks, h.live) && Shape(h.tls, h.stacks) && Heads(h.tls, h.stacks)
    && Lists(h.mem, h.blocks, h.live, h.stacks, h.pos)
  }

  ghost predicate Inv(h: H)
  {
    Separate(h) && Accounts(h)
  }

  // ---- the steps ----

  function Gain(x: Tls, bucket: nat, bytes: nat): Tls
    requires bucket < |x.classes|
  {
    x.(bytes := x.bytes + bytes, count := x.count + 1, classes := x.classes[bucket := x.classes[bucket] + 1])
  }

  function Loss(x: Tls, bucket: nat, bytes: nat): Tls
    requires bucket < |x.classes|
  {
    x.(bytes := x.bytes - bytes, count := x.count - 1, classes := x.classes[bucket := x.classes[bucket] - 1])
  }

  const NewTls := Tls(seq(NCLASSES, i => 0), 0, 0, 0, 0, seq(NCLASSES + 1, i => 0))

  ghost function AddThread(h: H): H
  {
    h.(tls := h.tls + [NewTls], stacks := h.stacks + [seq(NCLASSES, i => [])])
  }

  ghost function SetStack(stacks: seq<seq<seq<int>>>, t: nat, c: nat, st: seq<int>): seq<seq<seq<int>>>
    requires t < |stacks| && c < |stacks[t]|
  {
    stacks[t := stacks[t][c := st]]
  }

  ghost predicate Thread(h: H, t: nat)
  {
    t < |h.tls| && Shape(h.tls, h.stacks)
  }

  /** Pop a freed block of the class off the thread's list. */
  ghost function Reuse(h: H, t: nat, c: nat): H
    requires Thread(h, t) && c < NCLASSES && h.stacks[t][c] != []
  {
    var p := h.tls[t].free[c];
    var x := h.tls[t].(free := h.tls[t].free[c := LoadNum(h.mem, p)]);
    h.(mem := h.mem[p - 2 := Num(MAGIC)],
       tls := h.tls[t := Gain(x, c, ClassBytes(c))],
       stacks := SetStack(h.stacks, t, c, h.stacks[t][c][..|h.stacks[t][c]| - 1]),
       pos := h.pos - {p},
       live := h.live[p - 2 := Live(c, ClassBytes(c))])
  }

  /** The backend's promise: memory nothing else uses. */
  ghost predicate Fresh(h: H, base: int, words: nat)
  {
    FreshFor(h.blocks, h.slabs, base, words)
  }

  ghost predicate FreshFor(blocks: map<int, Block>, slabs: set<int>, base: int, words: nat)
  {
    && 0 < base
    && (forall s :: s in slabs ==> Beside(base, base + words, s))
    && (forall b :: b in blocks && blocks[b].cls == LARGE ==> base + words <= b || End(b, blocks[b]) <= base)
  }

  /** Retire the thread's slab, if any, for a new one. */
  ghost function OpenSlab(h: H, t: nat, base: int): H
    requires Thread(h, t)
  {
    h.(tls := h.tls[t := h.tls[t].(cur := base, end := base + SLAB_WORDS)], slabs := h.slabs + {base})
  }

  function PadAt(m: map<int, Word>, a: int): nat
  {
    match Load(m, a) case Meta(_, pad) => pad case Num(_) => 0
  }

  ghost predicate Fits(h: H, t: nat, c: nat)
    requires Thread(h, t)
  {
    h.tls[t].cur != 0 && h.tls[t].cur + 2 + ClassWords(c) <= h.tls[t].end
  }

  /** Lay out one more block at the thread's cursor. */
  ghost function Carve(h: H, t: nat, c: nat): H
    requires Thread(h, t) && c < NCLASSES
  {
    var b := h.tls[t].cur;
    var x := h.tls[t].(cur := b + 2 + ClassWords(c));
    h.(mem := h.mem[b := Num(MAGIC)][b + 1 := Meta(c, PadAt(h.mem, b + 1))],
       tls := h.tls[t := Gain(x, c, ClassBytes(c))],
       blocks := h.blocks[b := Block(c, ClassWords(c), h.tls[t].end - SLAB_WORDS)],
       live := h.live[b := Live(c, ClassBytes(c))])
  }

  /** A block of its own. Its size is kept in 32 bits; the byte counter takes all of it. */
  ghost function AllocLarge(h: H, t: nat, size: nat, base: int): H
    requires Thread(h, t)
  {
    h.(mem := h.mem[base := Num(MAGIC)][base + 1 := Meta(LARGE, size % TWO32)],
       tls := h.tls[t := Gain(h.tls[t], NCLASSES, size)],
       blocks := h.blocks[base := Block(LARGE, BytesToWords(size), base)],
       live := h.live[base := Live(LARGE, size % TWO32)],
       drift := h.drift + size - size % TWO32)
  }

  ghost function FreePooled(h: H, t: nat, b: int): H
    requires Thread(h, t) && b in h.blocks && h.blocks[b].cls < NCLASSES
  {
    var c := h.blocks[b].cls;
    var x := Loss(h.tls[t], c, ClassBytes(c));
    h.(mem := h.mem[b := Num(FREED)][b + 2 := Num(x.free[c])],
       tls := h.tls[t := x.(free := x.free[c := b + 2])],
       stacks := SetStack(h.stacks, t, c, h.stacks[t][c] + [b + 2]),
       pos := h.pos[b + 2 := (t, |h.stacks[t][c]|)],
       live := h.live - {b})
  }

  ghost function FreeLarge(h: H, t: nat, b: int): H
    requires Thread(h, t)
  {
    h.(mem := h.mem[b := Num(FREED)],
       tls := h.tls[t := Loss(h.tls[t], NCLASSES, PadAt(h.mem, b + 1))],
       blocks := h.blocks - {b},
       live := h.live - {b})
  }

  /** The program writes words of a payload it owns. */
  ghost function Overwrite(h: H, ws: map<int, Word>): H
  {
    h.(mem := h.mem + ws)
  }

  ghost predicate InPayload(h: H, b: int, ws: map<int, Word>)
  {
    b in h.live && b in h.blocks && forall a :: a in ws ==> b + 2 <= a < End(b, h.blocks[b])
  }

  /** Resize a large block: it moves, its contents with it, and no counter hears of it. */
  ghost function MoveLarge(h: H, b: int, size: nat, base: int, copied: map<int, Word>): H
    requires b in h.live
  {
    var pad := size % TWO32;
    h.(mem := (h.mem + copied)[base := Num(MAGIC)][base + 1 := Meta(LARGE, pad)],
       blocks := (h.blocks - {b})[base := Block(LARGE, BytesToWords(size), base)],
       live := (h.live - {b})[base := Live(LARGE, pad)],
       drift := h.drift + h.live[b].bytes - pad)
  }
}
