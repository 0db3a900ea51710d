/**
 The circular buffer both the ready queue and the channels use: a fixed array, the index
 of the oldest entry, and entries laid out from there with wrap-around.

 Positions are stated without division; `Wraps` ties them to the remainders the code computes.
 */
module Rings {
  import opened Arithmetic

  /** The index `i` places after `h`, going round a ring of `n` slots. */
  function Pos(h: nat, i: nat, n: nat): (r: nat)
    requires h < n && i <= n
    ensures r < n
  {
    if h + i < n then h + i else h + i - n
  }

  lemma Wraps(h: nat, i: nat, n: nat)
    requires h < n && i <= n
    ensures (h + i) % n == Pos(h, i, n)
  {
    if h + i >= n {
      OnceRound(h + i, n);
    }
  }

  lemma OnceRound(x: nat, n: nat)
    requires n <= x < 2 * n
    ensures x % n == x - n
  {
    var q := x / n;
    Scale(2, if q >= 2 then q else 2, n);
  }

  /** The `count` entries that start at `head`, oldest first. */
  ghost function Slots<T>(buf: seq<T>, head: nat, count: nat): (r: seq<T>)
    requires head < |buf| && count <= |buf|
    ensures |r| == count
  {
    seq(count, i requires 0 <= i < count => buf[Pos(head, i, |buf|)])
  }

  /** Writing one past the newest entry appends. */
  lemma PutAppends<T>(buf: seq<T>, head: nat, count: nat, v: T)
    requires head < |buf| && count < |buf|
    ensures Slots(buf[Pos(head, count, |buf|) := v], head, count + 1) == Slots(buf, head, count) + [v]
  {
  }

  /** Advancing the head drops the oldest entry. */
  lemma TakeDrops<T>(buf: seq<T>, head: nat, count: nat)
    requires head < |buf| && 0 < count <= |buf|
    ensures Slots(buf, Pos(head, 1, |buf|), count - 1) == Slots(buf, head, count)[1..]
    ensures Slots(buf, head, count)[0] == buf[head]
  {
  }
}
