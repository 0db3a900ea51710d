/** Folding over the 64-element blocks of a sequence that arrives in pieces. */
module BlockStream {

  /** The length of the whole blocks of a sequence of length `n`. */
  function Whole(n: nat): (r: nat)
    ensures r <= n < r + 64
  {
    n - n % 64
  }

  lemma WholeOfWhole(n: nat)
    ensures Whole(Whole(n)) == Whole(n)
  {
  }

  lemma WholeOfShort(n: nat, k: nat)
    requires n % 64 + k < 64
    ensures Whole(n + k) == Whole(n) && (n + k) % 64 == n % 64 + k
  {
  }

  lemma WholeOfFull(n: nat, k: nat)
    requires n % 64 + k == 64
    ensures Whole(n + k) == n + k == Whole(n) + 64 && (n + k) % 64 == 0
  {
  }

  /** `f` folded over every whole block of `m`. */
  function Fold<S, B>(init: S, f: (S, seq<B>) -> S, m: seq<B>): S
  {
    if |m| < 64 then init
    else
      var n := Whole(|m|);
      f(Fold(init, f, m[..n - 64]), m[n - 64..n])
  }

  lemma WholeIsPositive(n: nat, k: nat)
    requires n >= 64 && Whole(k) == Whole(n)
    ensures k >= 64 && Whole(n) >= 64
  {
  }

  lemma {:induction false} FoldLast<S, B>(init: S, f: (S, seq<B>) -> S, r: seq<B>, n: nat)
    requires |r| == n + 64 == Whole(|r|)
    ensures Fold(init, f, r) == f(Fold(init, f, r[..n]), r[n..n + 64])
  {
  }

  /** Only the whole blocks matter. */
  lemma {:induction false} FoldIgnoresPartialBlock<S, B>(init: S, f: (S, seq<B>) -> S, m: seq<B>, w: seq<B>)
    requires |w| <= |m| && w == m[..|w|] && Whole(|w|) == Whole(|m|)
    ensures Fold(init, f, w) == Fold(init, f, m)
  {
    hide Whole;
    var n := Whole(|m|);
    if |m| >= 64 {
      WholeIsPositive(|m|, |w|);
      assert w[..n - 64] == m[..n - 64];
      assert w[n - 64..n] == m[n - 64..n];
    }
  }

  /** A piece that does not fill the current block changes nothing yet. */
  lemma {:induction false} FoldShort<S, B>(init: S, f: (S, seq<B>) -> S, m: seq<B>, x: seq<B>)
    requires |m| % 64 + |x| < 64
    ensures Fold(init, f, m + x) == Fold(init, f, m)
  {
    hide Whole, Fold;
    WholeOfShort(|m|, |x|);
    assert m == (m + x)[..|m|];
    FoldIgnoresPartialBlock(init, f, m + x, m);
  }

  /** A piece that fills the current block folds that block in. */
  lemma {:induction false} FoldFull<S, B>(init: S, f: (S, seq<B>) -> S, m: seq<B>, x: seq<B>)
    requires |m| % 64 + |x| == 64
    ensures Fold(init, f, m + x) == f(Fold(init, f, m), m[Whole(|m|)..] + x)
  {
    hide Whole, Fold;
    var n := Whole(|m|);
    var r := m + x;
    WholeOfFull(|m|, |x|);
    WholeOfWhole(|m|);
    assert r[..n] == m[..n];
    assert r[n..n + 64] == m[n..] + x;
    FoldIgnoresPartialBlock(init, f, m, m[..n]);
    FoldLast(init, f, r, n);
  }
}
