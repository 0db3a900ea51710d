/** What a gained or a lost block does to the counters summed over all threads. */
module HeapAccounts {
  import opened Heap
  import opened Totals

  lemma {:induction false} SumClassUpdate(tls: seq<Tls>, t: nat, x: Tls, k: nat)
    requires k <= NCLASSES && t < |tls| && |x.classes| == NCLASSES + 1
    requires forall u :: 0 <= u < |tls| ==> |tls[u].classes| == NCLASSES + 1
    ensures SumClass(tls[t := x], k) == SumClass(tls, k) - tls[t].classes[k] + x.classes[k]
  {
    var n := |tls| - 1;
    if t == n {
      assert tls[t := x][..n] == tls[..n];
    } else {
      SumClassUpdate(tls[..n], t, x, k);
      assert tls[t := x][..n] == tls[..n][t := x];
    }
  }

  lemma BucketInsert(live: map<int, Live>, b: int, v: Live, k: nat)
    requires b !in live
    ensures |InBucket(live[b := v], k)| == |InBucket(live, k)| + (if Bucket(v.cls) == k then 1 else 0)
  {
    if Bucket(v.cls) == k {
      assert InBucket(live[b := v], k) == InBucket(live, k) + {b};
    } else {
      assert InBucket(live[b := v], k) == InBucket(live, k);
    }
  }

  /** One block more, counted by thread `t`. */
  lemma GainKeepsAccounts(h: H, r: H, t: nat, x: Tls, b: int, v: Live, amount: nat)
    requires Accounts(h) && Shape(r.tls, r.stacks) && t < |h.tls| && b !in h.live
    requires x.bytes == h.tls[t].bytes && x.count == h.tls[t].count && x.classes == h.tls[t].classes
    requires r.tls == h.tls[t := Gain(x, Bucket(v.cls), amount)] && r.live == h.live[b := v]
    requires r.drift == h.drift + amount - v.bytes
    ensures Accounts(r)
  {
    var y := Gain(x, Bucket(v.cls), amount);
    SumUpdate(h.tls, t, y, CountOf);
    SumUpdate(h.tls, t, y, BytesOf);
    SumMapInsert(h.live, b, v, RecordedBytes);
    forall k | 0 <= k <= NCLASSES ensures SumClass(r.tls, k) == |InBucket(r.live, k)| {
      SumClassUpdate(h.tls, t, y, k);
      BucketInsert(h.live, b, v, k);
    }
  }

  /** One block less, counted by thread `t`, whichever thread allocated it. */
  lemma LossKeepsAccounts(h: H, r: H, t: nat, x: Tls, b: int)
    requires Accounts(h) && Shape(r.tls, r.stacks) && t < |h.tls| && b in h.live
    requires
      var y := Loss(h.tls[t], Bucket(h.live[b].cls), h.live[b].bytes);
      x.bytes == y.bytes && x.count == y.count && x.classes == y.classes
    requires r.tls == h.tls[t := x] && r.live == h.live - {b} && r.drift == h.drift
    ensures Accounts(r)
  {
    var v := h.live[b];
    assert h.live == (h.live - {b})[b := v];
    SumUpdate(h.tls, t, x, CountOf);
    SumUpdate(h.tls, t, x, BytesOf);
    SumMapInsert(r.live, b, v, RecordedBytes);
    forall k | 0 <= k <= NCLASSES ensures SumClass(r.tls, k) == |InBucket(r.live, k)| {
      SumClassUpdate(h.tls, t, x, k);
      BucketInsert(r.live, b, v, k);
    }
  }

  /** A large block that moves is the same block to the counts, and the drift takes the rest. */
  lemma MoveKeepsAccounts(h: H, r: H, b: int, base: int, v: Live)
    requires Accounts(h) && b in h.live && h.live[b].cls == v.cls
    requires base !in h.live - {b} && r.live == (h.live - {b})[base := v]
    requires r.tls == h.tls && r.stacks == h.stacks && r.drift == h.drift + h.live[b].bytes - v.bytes
    ensures Accounts(r)
  {
    var rest := h.live - {b};
    assert h.live == rest[b := h.live[b]];
    SumMapInsert(rest, b, h.live[b], RecordedBytes);
    SumMapInsert(rest, base, v, RecordedBytes);
    forall k | 0 <= k <= NCLASSES ensures SumClass(r.tls, k) == |InBucket(r.live, k)| {
      BucketInsert(rest, b, h.live[b], k);
      BucketInsert(rest, base, v, k);
    }
  }

  lemma AddThreadKeepsAccounts(h: H)
    requires Accounts(h)
    ensures Accounts(AddThread(h))
  {
    var r := AddThread(h);
    SumAppend(h.tls, NewTls, CountOf);
    SumAppend(h.tls, NewTls, BytesOf);
    forall k | 0 <= k <= NCLASSES ensures SumClass(r.tls, k) == SumClass(h.tls, k) {
      assert r.tls[..|r.tls| - 1] == h.tls;
    }
  }
}
