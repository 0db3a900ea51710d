/** Every step of the heap keeps blocks, slabs, stamps and free lists apart and intact. */
module HeapSeparation {
  import opened Heap

  lemma Apart(blocks: map<int, Block>, slabs: set<int>, b: int, c: int)
    requires Layout(blocks, slabs) && b in blocks && c in blocks && b != c
    ensures End(b, blocks[b]) <= c || End(c, blocks[c]) <= b
  {
    if b < c {
      assert End(b, blocks[b]) <= c;
    } else {
      assert End(c, blocks[c]) <= b;
    }
  }

  /** Memory agrees outside one block. */
  ghost predicate OnlyIn(m: map<int, Word>, n: map<int, Word>, lo: int, hi: int)
  {
    forall a :: a < lo || hi <= a ==> Load(n, a) == Load(m, a)
  }

  /** A list entry of another block keeps its place and its link. */
  lemma WriteKeepsNode(blocks: map<int, Block>, slabs: set<int>, m: map<int, Word>, n: map<int, Word>,
                       live: map<int, Live>, live': map<int, Live>, pos: map<int, (nat, nat)>, pos': map<int, (nat, nat)>,
                       b0: int, t: nat, c: nat, i: nat, st: seq<int>)
    requires Layout(blocks, slabs) && b0 in blocks && i < |st| && c < NCLASSES
    requires OnlyIn(m, n, b0, End(b0, blocks[b0])) && live' - {b0} == live - {b0}
    requires NodeOk(m, blocks, live, pos, t, c, i, st) && st[i] != b0 + 2
    requires st[i] in pos' && pos'[st[i]] == pos[st[i]]
    ensures NodeOk(n, blocks, live', pos', t, c, i, st)
  {
    var b := st[i] - 2;
    Apart(blocks, slabs, b, b0);
    assert BlockOk(slabs, b, blocks[b]);
    assert b in live' - {b0} <==> b in live - {b0};
  }

  /** Every list entry satisfies `NodeOk`, and a list never holds the same payload twice. */
  lemma ListNode(m: map<int, Word>, blocks: map<int, Block>, live: map<int, Live>,
                 stacks: seq<seq<seq<int>>>, pos: map<int, (nat, nat)>, t: nat, c: nat, i: nat)
    requires Lists(m, blocks, live, stacks, pos) && t < |stacks| && c < NCLASSES && i < |stacks[t][c]|
    ensures NodeOk(m, blocks, live, pos, t, c, i, stacks[t][c])
  {
  }

  lemma ListedOnce(m: map<int, Word>, blocks: map<int, Block>, live: map<int, Live>,
                   stacks: seq<seq<seq<int>>>, pos: map<int, (nat, nat)>, t: nat, c: nat, i: nat, u: nat, d: nat, j: nat)
    requires Lists(m, blocks, live, stacks, pos)
    requires t < |stacks| && c < NCLASSES && i < |stacks[t][c]|
    requires u < |stacks| && d < NCLASSES && j < |stacks[u][d]|
    ensures stacks[t][c][i] == stacks[u][d][j] ==> t == u && c == d && i == j
    ensures NodeOk(m, blocks, live, pos, u, d, j, stacks[u][d])
  {
    ListNode(m, blocks, live, stacks, pos, t, c, i);
    ListNode(m, blocks, live, stacks, pos, u, d, j);
  }

  lemma EveryListed(m: map<int, Word>, blocks: map<int, Block>, live: map<int, Live>,
                    stacks: seq<seq<seq<int>>>, pos: map<int, (nat, nat)>, b: int)
    requires Lists(m, blocks, live, stacks, pos) && b in blocks && b !in live
    ensures Listed(stacks, pos, b, blocks[b].cls)
  {
  }

  lemma SetStackAt(stacks: seq<seq<seq<int>>>, t: nat, c: nat, st: seq<int>, u: nat, d: nat)
    requires t < |stacks| && c < |stacks[t]| && u < |stacks| && d < |stacks[u]|
    ensures |SetStack(stacks, t, c, st)| == |stacks| && |SetStack(stacks, t, c, st)[u]| == |stacks[u]|
    ensures SetStack(stacks, t, c, st)[u][d] == if u == t && d == c then st else stacks[u][d]
  {
  }

  lemma PopKeepsNode(blocks: map<int, Block>, slabs: set<int>, m: map<int, Word>, n: map<int, Word>,
                     live: map<int, Live>, live': map<int, Live>, stacks: seq<seq<seq<int>>>, pos: map<int, (nat, nat)>,
                     t: nat, c: nat, b0: int, u: nat, d: nat, i: nat)
    requires Layout(blocks, slabs) && Lists(m, blocks, live, stacks, pos)
    requires t < |stacks| && c < NCLASSES && stacks[t][c] != [] && b0 == Top(stacks[t][c]) - 2
    requires b0 in blocks && OnlyIn(m, n, b0, End(b0, blocks[b0])) && live' - {b0} == live - {b0}
    requires u < |stacks| && d < NCLASSES && i < |stacks[u][d]| && (u == t && d == c ==> i < |stacks[t][c]| - 1)
    ensures NodeOk(n, blocks, live', pos - {b0 + 2}, u, d, i, stacks[u][d])
  {
    ListedOnce(m, blocks, live, stacks, pos, t, c, |stacks[t][c]| - 1, u, d, i);
    WriteKeepsNode(blocks, slabs, m, n, live, live', pos, pos - {b0 + 2}, b0, u, d, i, stacks[u][d]);
  }

  lemma PopKeepsListed(m: map<int, Word>, blocks: map<int, Block>, live: map<int, Live>,
                       stacks: seq<seq<seq<int>>>, pos: map<int, (nat, nat)>, t: nat, c: nat, b: int)
    requires Lists(m, blocks, live, stacks, pos) && t < |stacks| && c < NCLASSES && stacks[t][c] != []
    requires b in blocks && b !in live && b + 2 != Top(stacks[t][c])
    ensures Listed(SetStack(stacks, t, c, stacks[t][c][..|stacks[t][c]| - 1]), pos - {Top(stacks[t][c])}, b, blocks[b].cls)
  {
    EveryListed(m, blocks, live, stacks, pos, b);
    SetStackAt(stacks, t, c, stacks[t][c][..|stacks[t][c]| - 1], pos[b + 2].0, blocks[b].cls);
  }

  /** Popping a list: its top block becomes live. */
  lemma PopKeepsLists(blocks: map<int, Block>, slabs: set<int>, m: map<int, Word>, n: map<int, Word>,
                      live: map<int, Live>, live': map<int, Live>, stacks: seq<seq<seq<int>>>, pos: map<int, (nat, nat)>,
                      t: nat, c: nat, b0: int)
    requires Layout(blocks, slabs) && Lists(m, blocks, live, stacks, pos)
    requires t < |stacks| && c < NCLASSES && stacks[t][c] != [] && b0 == Top(stacks[t][c]) - 2
    requires b0 in blocks && b0 in live' && OnlyIn(m, n, b0, End(b0, blocks[b0])) && live' - {b0} == live - {b0}
    ensures Lists(n, blocks, live', SetStack(stacks, t, c, stacks[t][c][..|stacks[t][c]| - 1]), pos - {b0 + 2})
  {
    var cut := stacks[t][c][..|stacks[t][c]| - 1];
    var r := SetStack(stacks, t, c, cut);
    var pos' := pos - {b0 + 2};
    forall u | 0 <= u < |r| ensures |r[u]| == NCLASSES {
      assert |stacks[u]| == NCLASSES;
    }
    forall u, d, i | 0 <= u < |r| && 0 <= d < NCLASSES && 0 <= i < |r[u][d]|
      ensures NodeOk(n, blocks, live', pos', u, d, i, r[u][d])
    {
      SetStackAt(stacks, t, c, cut, u, d);
      PopKeepsNode(blocks, slabs, m, n, live, live', stacks, pos, t, c, b0, u, d, i);
    }
    forall b | b in blocks && b !in live'
      ensures Listed(r, pos', b, blocks[b].cls)
    {
      assert b !in live' - {b0};
      PopKeepsListed(m, blocks, live, stacks, pos, t, c, b);
    }
  }

  /** Pushing a list: a live block of its class becomes its top. */
  lemma PushKeepsLists(blocks: map<int, Block>, slabs: set<int>, m: map<int, Word>, n: map<int, Word>,
                       live: map<int, Live>, stacks: seq<seq<seq<int>>>, pos: map<int, (nat, nat)>,
                       t: nat, c: nat, b0: int)
    requires Layout(blocks, slabs) && Lists(m, blocks, live, stacks, pos)
    requires t < |stacks| && b0 in blocks && b0 in live && blocks[b0].cls == c < NCLASSES
    requires OnlyIn(m, n, b0, End(b0, blocks[b0])) && Load(n, b0 + 2) == Num(Top(stacks[t][c]))
    ensures Lists(n, blocks, live - {b0}, SetStack(stacks, t, c, stacks[t][c] + [b0 + 2]), pos[b0 + 2 := (t, |stacks[t][c]|)])
  {
    hide Layout;
    var grown := stacks[t][c] + [b0 + 2];
    var r := SetStack(stacks, t, c, grown);
    var pos' := pos[b0 + 2 := (t, |stacks[t][c]|)];
    forall u | 0 <= u < |r| ensures |r[u]| == NCLASSES {
      assert |stacks[u]| == NCLASSES;
    }
    forall u, d, i | 0 <= u < |r| && 0 <= d < NCLASSES && 0 <= i < |r[u][d]|
      ensures NodeOk(n, blocks, live - {b0}, pos', u, d, i, r[u][d])
    {
      SetStackAt(stacks, t, c, grown, u, d);
      if i < |stacks[u][d]| {
        ListNode(m, blocks, live, stacks, pos, u, d, i);
        WriteKeepsNode(blocks, slabs, m, n, live, live - {b0}, pos, pos', b0, u, d, i, stacks[u][d]);
      }
    }
    forall b | b in blocks && b !in live - {b0}
      ensures Listed(r, pos', b, blocks[b].cls)
    {
      if b != b0 {
        EveryListed(m, blocks, live, stacks, pos, b);
        SetStackAt(stacks, t, c, grown, pos[b + 2].0, blocks[b].cls);
      } else {
        SetStackAt(stacks, t, c, grown, t, c);
      }
    }
  }

  /** Writing inside one live block, laid out before or just now, moves no list. */
  lemma WriteKeepsLists(blocks: map<int, Block>, blocks': map<int, Block>, slabs: set<int>, m: map<int, Word>, n: map<int, Word>,
                        live: map<int, Live>, live': map<int, Live>, stacks: seq<seq<seq<int>>>, pos: map<int, (nat, nat)>,
                        b0: int)
    requires Layout(blocks', slabs) && Lists(m, blocks, live, stacks, pos)
    requires b0 in blocks' && b0 in live' && (b0 in blocks ==> b0 in live)
    requires blocks' - {b0} == blocks - {b0} && live' - {b0} == live - {b0}
    requires OnlyIn(m, n, b0, End(b0, blocks'[b0]))
    ensures Lists(n, blocks', live', stacks, pos)
  {
    forall u, d, i | 0 <= u < |stacks| && 0 <= d < NCLASSES && 0 <= i < |stacks[u][d]|
      ensures NodeOk(n, blocks', live', pos, u, d, i, stacks[u][d])
    {
      var su := stacks[u][d];
      var b := su[i] - 2;
      assert NodeOk(m, blocks, live, pos, u, d, i, su);
      assert b != b0;
      assert b in blocks - {b0} && (blocks - {b0})[b] == (blocks' - {b0})[b];
      assert b !in live' - {b0};
      WriteKeepsNode(blocks', slabs, m, n, live - {b0}, live', pos, pos, b0, u, d, i, su);
    }
    forall b | b in blocks' && b !in live'
      ensures Listed(stacks, pos, b, blocks'[b].cls)
    {
      assert b in blocks' - {b0};
      assert b !in live - {b0};
      assert (blocks - {b0})[b] == (blocks' - {b0})[b];
      assert Listed(stacks, pos, b, blocks[b].cls);
    }
  }

  /** A block added, or one whose contents change, beside headers that do not. */
  lemma BlockKeepsStamps(blocks: map<int, Block>, blocks': map<int, Block>, slabs: set<int>, m: map<int, Word>, n: map<int, Word>,
                         live: map<int, Live>, live': map<int, Live>, b0: int)
    requires Layout(blocks', slabs) && Stamps(m, blocks, live) && b0 in blocks'
    requires blocks' - {b0} == blocks - {b0} && live' - {b0} == live - {b0}
    requires OnlyIn(m, n, b0, End(b0, blocks'[b0]))
    requires StampOk(n, live', b0, blocks'[b0])
    ensures Stamps(n, blocks', live')
  {
    forall b | b in blocks' ensures StampOk(n, live', b, blocks'[b]) {
      if b != b0 {
        assert b in blocks' - {b0} && (blocks - {b0})[b] == (blocks' - {b0})[b];
        assert StampOk(m, live, b, blocks[b]);
        Apart(blocks', slabs, b, b0);
        assert b in live' - {b0} <==> b in live - {b0};
        assert b in live ==> live'[b] == (live' - {b0})[b];
      }
    }
    forall b | b in live' ensures b in blocks' {
      if b != b0 {
        assert b in live - {b0};
        assert b in blocks' - {b0};
      }
    }
  }

  // ---- each step keeps the separation ----

  lemma HeadsAfter(tls: seq<Tls>, stacks: seq<seq<seq<int>>>, t: nat, c: nat, x: Tls, st: seq<int>)
    requires Shape(tls, stacks) && Heads(tls, stacks) && t < |tls| && c < NCLASSES
    requires |x.classes| == NCLASSES + 1 && x.free == tls[t].free[c := Top(st)]
    ensures Shape(tls[t := x], SetStack(stacks, t, c, st)) && Heads(tls[t := x], SetStack(stacks, t, c, st))
  {
    var r := SetStack(stacks, t, c, st);
    forall u, d | 0 <= u < |tls| && 0 <= d < NCLASSES ensures tls[t := x][u].free[d] == Top(r[u][d]) {
      SetStackAt(stacks, t, c, st, u, d);
    }
  }

  lemma TailsAfter(tls: seq<Tls>, blocks: map<int, Block>, slabs: set<int>, t: nat, x: Tls)
    requires Tails(tls, blocks, slabs) && t < |tls| && x.cur == tls[t].cur && x.end == tls[t].end
    ensures Tails(tls[t := x], blocks, slabs)
  {
  }

  /** The top of a nonempty list, seen as a block. */
  lemma TopNode(h: H, t: nat, c: nat)
    requires Separate(h) && Thread(h, t) && c < NCLASSES && h.stacks[t][c] != []
    ensures
      var st := h.stacks[t][c];
      var p := h.tls[t].free[c];
      && p == Top(st) && p - 2 in h.blocks && p - 2 !in h.live && h.blocks[p - 2].cls == c
      && p > 2 && LoadNum(h.mem, p) == Top(st[..|st| - 1])
      && StampOk(h.mem, h.live, p - 2, h.blocks[p - 2]) && BlockOk(h.slabs, p - 2, h.blocks[p - 2])
  {
    var st := h.stacks[t][c];
    ListNode(h.mem, h.blocks, h.live, h.stacks, h.pos, t, c, |st| - 1);
    assert StampOk(h.mem, h.live, Top(st) - 2, h.blocks[Top(st) - 2]);
  }

  lemma ReuseKeeps(h: H, t: nat, c: nat)
    requires Separate(h) && Thread(h, t) && c < NCLASSES && h.stacks[t][c] != []
    ensures Separate(Reuse(h, t, c))
  {
    hide Layout, Tails, Stamps, Lists, BlockOk;
    TopNode(h, t, c);
    var r := Reuse(h, t, c);
    var st := h.stacks[t][c];
    var b := h.tls[t].free[c] - 2;
    HeadsAfter(h.tls, h.stacks, t, c, r.tls[t], st[..|st| - 1]);
    TailsAfter(h.tls, h.blocks, h.slabs, t, r.tls[t]);
    BlockKeepsStamps(h.blocks, h.blocks, h.slabs, h.mem, r.mem, h.live, r.live, b);
    PopKeepsLists(h.blocks, h.slabs, h.mem, r.mem, h.live, r.live, h.stacks, h.pos, t, c, b);
  }

  lemma FreePooledKeeps(h: H, t: nat, b: int)
    requires Separate(h) && Thread(h, t) && b in h.live && b in h.blocks && h.blocks[b].cls < NCLASSES
    ensures Separate(FreePooled(h, t, b))
  {
    var c := h.blocks[b].cls;
    var r := FreePooled(h, t, b);
    assert BlockOk(h.slabs, b, h.blocks[b]) && StampOk(h.mem, h.live, b, h.blocks[b]);
    HeadsAfter(h.tls, h.stacks, t, c, r.tls[t], h.stacks[t][c] + [b + 2]);
    TailsAfter(h.tls, h.blocks, h.slabs, t, r.tls[t]);
    BlockKeepsStamps(h.blocks, h.blocks, h.slabs, h.mem, r.mem, h.live, r.live, b);
    PushKeepsLists(h.blocks, h.slabs, h.mem, r.mem, h.live, h.stacks, h.pos, t, c, b);
  }

  lemma OverwriteKeeps(h: H, b: int, ws: map<int, Word>)
    requires Separate(h) && InPayload(h, b, ws)
    ensures Separate(Overwrite(h, ws))
  {
    var r := Overwrite(h, ws);
    assert StampOk(h.mem, h.live, b, h.blocks[b]);
    BlockKeepsStamps(h.blocks, h.blocks, h.slabs, h.mem, r.mem, h.live, h.live, b);
    WriteKeepsLists(h.blocks, h.blocks, h.slabs, h.mem, r.mem, h.live, h.live, h.stacks, h.pos, b);
  }

  lemma AddThreadKeeps(h: H)
    requires Separate(h)
    ensures Separate(AddThread(h))
  {
    var r := AddThread(h);
    forall t, c, i | 0 <= t < |r.stacks| && 0 <= c < NCLASSES && 0 <= i < |r.stacks[t][c]|
      ensures NodeOk(r.mem, r.blocks, r.live, r.pos, t, c, i, r.stacks[t][c])
    {
      ListNode(h.mem, h.blocks, h.live, h.stacks, h.pos, t, c, i);
    }
    forall b | b in r.blocks && b !in r.live ensures Listed(r.stacks, r.pos, b, r.blocks[b].cls) {
      EveryListed(h.mem, h.blocks, h.live, h.stacks, h.pos, b);
    }
  }

  /** Fresh memory touches no block, pooled ones included. */
  lemma FreshIsApart(blocks: map<int, Block>, slabs: set<int>, base: int, words: nat, b: int)
    requires Layout(blocks, slabs) && FreshFor(blocks, slabs, base, words) && b in blocks
    ensures base + words <= b || End(b, blocks[b]) <= base
  {
    assert BlockOk(slabs, b, blocks[b]);
    if blocks[b].cls != LARGE {
      assert Beside(base, base + words, blocks[b].slab);
    }
  }

  lemma SlabKeepsLayout(blocks: map<int, Block>, slabs: set<int>, base: int)
    requires Layout(blocks, slabs) && FreshFor(blocks, slabs, base, SLAB_WORDS)
    ensures Layout(blocks, slabs + {base})
  {
    forall b | b in blocks ensures BlockOk(slabs + {base}, b, blocks[b]) {
      assert BlockOk(slabs, b, blocks[b]);
    }
    forall b, s | b in blocks && blocks[b].cls == LARGE && s in slabs + {base}
      ensures Beside(b, End(b, blocks[b]), s)
    {
      FreshIsApart(blocks, slabs, base, SLAB_WORDS, b);
    }
    forall s, t | s in slabs + {base} && t in slabs + {base} && s < t
      ensures s + SLAB_WORDS <= t
    {
      if s == base { assert Beside(base, base + SLAB_WORDS, t); }
      if t == base { assert Beside(base, base + SLAB_WORDS, s); }
    }
  }

  lemma SlabKeepsTails(tls: seq<Tls>, blocks: map<int, Block>, slabs: set<int>, t: nat, base: int)
    requires Tails(tls, blocks, slabs) && Layout(blocks, slabs) && FreshFor(blocks, slabs, base, SLAB_WORDS) && t < |tls|
    ensures Tails(tls[t := tls[t].(cur := base, end := base + SLAB_WORDS)], blocks, slabs + {base})
  {
    var r := tls[t := tls[t].(cur := base, end := base + SLAB_WORDS)];
    forall u | 0 <= u < |r| ensures TailOk(r[u].cur, r[u].end, blocks, slabs + {base}) {
      assert TailOk(tls[u].cur, tls[u].end, blocks, slabs);
      forall b | b in blocks ensures u == t ==> End(b, blocks[b]) <= base || base + SLAB_WORDS <= b {
        FreshIsApart(blocks, slabs, base, SLAB_WORDS, b);
      }
    }
    forall u | 0 <= u < |tls| && tls[u].cur != 0 ensures tls[u].end != base + SLAB_WORDS {
      assert TailOk(tls[u].cur, tls[u].end, blocks, slabs);
      assert Beside(base, base + SLAB_WORDS, tls[u].end - SLAB_WORDS);
    }
  }

  lemma OpenSlabKeeps(h: H, t: nat, base: int)
    requires Separate(h) && Thread(h, t) && Fresh(h, base, SLAB_WORDS)
    ensures Separate(OpenSlab(h, t, base))
  {
    SlabKeepsLayout(h.blocks, h.slabs, base);
    SlabKeepsTails(h.tls, h.blocks, h.slabs, t, base);
    SameLists(h.tls, h.stacks, t, OpenSlab(h, t, base).tls[t]);
  }

  /** A thread's entry whose list heads stay. */
  lemma SameLists(tls: seq<Tls>, stacks: seq<seq<seq<int>>>, t: nat, x: Tls)
    requires Shape(tls, stacks) && Heads(tls, stacks) && t < |tls|
    requires x.free == tls[t].free && |x.classes| == NCLASSES + 1
    ensures Shape(tls[t := x], stacks) && Heads(tls[t := x], stacks)
  {
  }

  lemma CarveKeepsLayout(tls: seq<Tls>, blocks: map<int, Block>, slabs: set<int>, t: nat, c: nat)
    requires Layout(blocks, slabs) && Tails(tls, blocks, slabs) && t < |tls| && c < NCLASSES
    requires tls[t].cur != 0 && tls[t].cur + 2 + ClassWords(c) <= tls[t].end
    ensures tls[t].cur !in blocks
    ensures Layout(blocks[tls[t].cur := Block(c, ClassWords(c), tls[t].end - SLAB_WORDS)], slabs)
  {
    var b := tls[t].cur;
    var r := blocks[b := Block(c, ClassWords(c), tls[t].end - SLAB_WORDS)];
    assert TailOk(b, tls[t].end, blocks, slabs);
    forall x | x in r ensures 0 < x && BlockOk(slabs, x, r[x]) {
      if x != b { assert BlockOk(slabs, x, blocks[x]); }
    }
  }

  lemma CarveKeepsTails(tls: seq<Tls>, blocks: map<int, Block>, slabs: set<int>, t: nat, c: nat, x: Tls)
    requires Layout(blocks, slabs) && Tails(tls, blocks, slabs) && t < |tls| && c < NCLASSES
    requires tls[t].cur != 0 && tls[t].cur + 2 + ClassWords(c) <= tls[t].end
    requires x.cur == tls[t].cur + 2 + ClassWords(c) && x.end == tls[t].end
    ensures Tails(tls[t := x], blocks[tls[t].cur := Block(c, ClassWords(c), tls[t].end - SLAB_WORDS)], slabs)
  {
    var b := tls[t].cur;
    var r := blocks[b := Block(c, ClassWords(c), tls[t].end - SLAB_WORDS)];
    assert TailOk(b, tls[t].end, blocks, slabs);
    var q := tls[t := x];
    forall u | 0 <= u < |q| ensures TailOk(q[u].cur, q[u].end, r, slabs) {
      assert TailOk(tls[u].cur, tls[u].end, blocks, slabs);
      if u != t && tls[u].cur != 0 {
        assert tls[u].end != tls[t].end;
      }
    }
  }

  lemma CarveKeeps(h: H, t: nat, c: nat)
    requires Separate(h) && Thread(h, t) && c < NCLASSES && Fits(h, t, c)
    ensures Separate(Carve(h, t, c)) && h.tls[t].cur !in h.blocks
  {
    var r := Carve(h, t, c);
    var b := h.tls[t].cur;
    CarveKeepsLayout(h.tls, h.blocks, h.slabs, t, c);
    CarveKeepsTails(h.tls, h.blocks, h.slabs, t, c, r.tls[t]);
    SameLists(h.tls, h.stacks, t, r.tls[t]);
    BlockKeepsStamps(h.blocks, r.blocks, h.slabs, h.mem, r.mem, h.live, r.live, b);
    WriteKeepsLists(h.blocks, r.blocks, h.slabs, h.mem, r.mem, h.live, r.live, h.stacks, h.pos, b);
  }

  lemma LargeKeepsLayout(tls: seq<Tls>, blocks: map<int, Block>, slabs: set<int>, base: int, words: nat)
    requires Layout(blocks, slabs) && Tails(tls, blocks, slabs) && FreshFor(blocks, slabs, base, 2 + words)
    ensures base !in blocks
    ensures Layout(blocks[base := Block(LARGE, words, base)], slabs) && Tails(tls, blocks[base := Block(LARGE, words, base)], slabs)
  {
    var r := blocks[base := Block(LARGE, words, base)];
    forall x | x in blocks ensures base + 2 + words <= x || End(x, blocks[x]) <= base {
      FreshIsApart(blocks, slabs, base, 2 + words, x);
    }
    forall x | x in r ensures 0 < x && BlockOk(slabs, x, r[x]) {
      if x != base { assert BlockOk(slabs, x, blocks[x]); }
    }
    forall s | s in slabs ensures Beside(base, base + 2 + words, s) {
    }
    forall u | 0 <= u < |tls| ensures TailOk(tls[u].cur, tls[u].end, r, slabs) {
      assert TailOk(tls[u].cur, tls[u].end, blocks, slabs);
    }
  }

  lemma AllocLargeKeeps(h: H, t: nat, size: nat, base: int)
    requires Separate(h) && Thread(h, t) && Fresh(h, base, 2 + BytesToWords(size))
    ensures Separate(AllocLarge(h, t, size, base)) && base !in h.blocks
  {
    var r := AllocLarge(h, t, size, base);
    LargeKeepsLayout(h.tls, h.blocks, h.slabs, base, BytesToWords(size));
    TailsAfter(h.tls, r.blocks, h.slabs, t, r.tls[t]);
    SameLists(h.tls, h.stacks, t, r.tls[t]);
    BlockKeepsStamps(h.blocks, r.blocks, h.slabs, h.mem, r.mem, h.live, r.live, base);
    WriteKeepsLists(h.blocks, r.blocks, h.slabs, h.mem, r.mem, h.live, r.live, h.stacks, h.pos, base);
  }

  /** Giving a large block back. */
  lemma DropKeepsLayout(tls: seq<Tls>, blocks: map<int, Block>, slabs: set<int>, b: int)
    requires Layout(blocks, slabs) && Tails(tls, blocks, slabs)
    ensures Layout(blocks - {b}, slabs) && Tails(tls, blocks - {b}, slabs)
  {
    forall x | x in blocks - {b} ensures 0 < x && BlockOk(slabs, x, (blocks - {b})[x]) {
      assert BlockOk(slabs, x, blocks[x]);
    }
    forall u | 0 <= u < |tls| ensures TailOk(tls[u].cur, tls[u].end, blocks - {b}, slabs) {
      assert TailOk(tls[u].cur, tls[u].end, blocks, slabs);
    }
  }

  /** With a live block gone and memory changed only where it was, headers and lists stand. */
  lemma DropKeepsContents(blocks: map<int, Block>, slabs: set<int>, m: map<int, Word>, n: map<int, Word>,
                          live: map<int, Live>, stacks: seq<seq<seq<int>>>, pos: map<int, (nat, nat)>, b0: int)
    requires Layout(blocks, slabs) && Stamps(m, blocks, live) && Lists(m, blocks, live, stacks, pos)
    requires b0 in blocks && b0 in live && OnlyIn(m, n, b0, End(b0, blocks[b0]))
    ensures Stamps(n, blocks - {b0}, live - {b0}) && Lists(n, blocks - {b0}, live - {b0}, stacks, pos)
  {
    forall b | b in blocks - {b0} ensures StampOk(n, live - {b0}, b, blocks[b]) {
      assert StampOk(m, live, b, blocks[b]);
      Apart(blocks, slabs, b, b0);
    }
    forall u, d, i | 0 <= u < |stacks| && 0 <= d < NCLASSES && 0 <= i < |stacks[u][d]|
      ensures NodeOk(n, blocks - {b0}, live - {b0}, pos, u, d, i, stacks[u][d])
    {
      ListNode(m, blocks, live, stacks, pos, u, d, i);
      WriteKeepsNode(blocks, slabs, m, n, live, live - {b0}, pos, pos, b0, u, d, i, stacks[u][d]);
    }
    forall b | b in blocks - {b0} && b !in live - {b0} ensures Listed(stacks, pos, b, (blocks - {b0})[b].cls) {
      EveryListed(m, blocks, live, stacks, pos, b);
    }
  }

  lemma FreeLargeKeeps(h: H, t: nat, b: int)
    requires Separate(h) && Thread(h, t) && b in h.live && b in h.blocks
    ensures Separate(FreeLarge(h, t, b))
  {
    var r := FreeLarge(h, t, b);
    DropKeepsLayout(h.tls, h.blocks, h.slabs, b);
    DropKeepsContents(h.blocks, h.slabs, h.mem, r.mem, h.live, h.stacks, h.pos, b);
    TailsAfter(h.tls, r.blocks, h.slabs, t, r.tls[t]);
    SameLists(h.tls, h.stacks, t, r.tls[t]);
  }

  lemma MoveLargeKeeps(h: H, b: int, size: nat, base: int, copied: map<int, Word>)
    requires Separate(h) && b in h.live && b in h.blocks && h.blocks[b].cls == LARGE
    requires FreshFor(h.blocks - {b}, h.slabs, base, 2 + BytesToWords(size))
    requires forall a :: a in copied ==> base + 2 <= a < base + 2 + BytesToWords(size)
    ensures Separate(MoveLarge(h, b, size, base, copied))
  {
    var r := MoveLarge(h, b, size, base, copied);
    var blocks, live := h.blocks - {b}, h.live - {b};
    DropKeepsLayout(h.tls, h.blocks, h.slabs, b);
    DropKeepsContents(h.blocks, h.slabs, h.mem, h.mem, h.live, h.stacks, h.pos, b);
    LargeKeepsLayout(h.tls, blocks, h.slabs, base, BytesToWords(size));
    BlockKeepsStamps(blocks, r.blocks, h.slabs, h.mem, r.mem, live, r.live, base);
    WriteKeepsLists(blocks, r.blocks, h.slabs, h.mem, r.mem, live, r.live, h.stacks, h.pos, base);
  }
}
