/**
 Matrix multiplication with its two inner loops interchanged. Nothing is known of addition and
 multiplication, not even that they are associative or commutative: each cell is accumulated
 in the same order of `k` by both nests, so they compute the same array.
 */
module LoopInterchange {
  import opened Arithmetic

  datatype Arith<!T> = Arith(zero: T, add: (T, T) -> T, mul: (T, T) -> T)

  // ---- flattened indices ----

  /** Where cell (i, j) of an n by n matrix stands in its array. */
  function At(n: nat, i: nat, j: nat): nat { i * n + j }

  lemma AtInRange(n: nat, i: nat, j: nat)
    requires i < n && j < n
    ensures At(n, i, j) < n * n && At(n, i, j) < At(n, i + 1, 0) <= n * n
    ensures At(n, i, j) / n == i && At(n, i, j) % n == j
  {
    Scale(i + 1, n, n);
    QuotientIs(At(n, i, j), n, i, j);
  }

  lemma QuotientIs(x: nat, n: nat, q: nat, r: nat)
    requires x == q * n + r && r < n
    ensures x / n == q && x % n == r
  {
    var p := x / n;
    assert x == p * n + x % n;
    if p < q {
      Scale(p + 1, q, n);
    } else if q < p {
      Scale(q + 1, p, n);
    }
  }

  /** Different cells stand at different places. */
  lemma AtIsInjective(n: nat, i: nat, j: nat, i': nat, j': nat)
    requires i < n && j < n && i' < n && j' < n && At(n, i, j) == At(n, i', j')
    ensures i == i' && j == j'
  {
    AtInRange(n, i, j);
    AtInRange(n, i', j');
  }

  // ---- what a cell is ----

  /** The first `k` terms of row `i` times column `j`, added up from the left. */
  function Dot<T>(ar: Arith<T>, n: nat, a: seq<T>, b: seq<T>, i: nat, j: nat, k: nat): T
    requires i < n && j < n && k <= n && |a| == n * n && |b| == n * n
  {
    if k == 0 then ar.zero
    else
      AtInRange(n, i, k - 1);
      AtInRange(n, k - 1, j);
      ar.add(Dot(ar, n, a, b, i, j, k - 1), ar.mul(a[At(n, i, k - 1)], b[At(n, k - 1, j)]))
  }

  /** The cell at place `x` after `k` terms. */
  ghost function Cell<T>(ar: Arith<T>, n: nat, a: seq<T>, b: seq<T>, x: nat, k: nat): T
    requires k <= n && |a| == n * n && |b| == n * n
  {
    if n > 0 && x / n < n then Dot(ar, n, a, b, x / n, x % n, k) else ar.zero
  }

  lemma CellAt<T>(ar: Arith<T>, n: nat, a: seq<T>, b: seq<T>, i: nat, j: nat, k: nat)
    requires i < n && j < n && k <= n && |a| == n * n && |b| == n * n
    ensures Cell(ar, n, a, b, At(n, i, j), k) == Dot(ar, n, a, b, i, j, k)
  {
    AtInRange(n, i, j);
  }

  /** One more term. */
  lemma CellStep<T>(ar: Arith<T>, n: nat, a: seq<T>, b: seq<T>, i: nat, j: nat, k: nat)
    requires i < n && j < n && k < n && |a| == n * n && |b| == n * n
    ensures At(n, i, j) < n * n && At(n, i, k) < n * n && At(n, k, j) < n * n
    ensures Cell(ar, n, a, b, At(n, i, j), k + 1) ==
      ar.add(Cell(ar, n, a, b, At(n, i, j), k), ar.mul(a[At(n, i, k)], b[At(n, k, j)]))
  {
    CellAt(ar, n, a, b, i, j, k);
    CellAt(ar, n, a, b, i, j, k + 1);
    AtInRange(n, i, j);
    AtInRange(n, i, k);
    AtInRange(n, k, j);
  }

  /** Before any term every cell is zero. */
  lemma CellStarts<T>(ar: Arith<T>, n: nat, a: seq<T>, b: seq<T>, x: nat)
    requires |a| == n * n && |b| == n * n
    ensures Cell(ar, n, a, b, x, 0) == ar.zero
  {
  }

  /** Places `from` up to `to` of `c` hold their cells after `k` terms. */
  ghost predicate Filled<T>(ar: Arith<T>, n: nat, a: seq<T>, b: seq<T>, c: seq<T>, from: nat, to: nat, k: nat)
    requires k <= n && |a| == n * n && |b| == n * n
  {
    to <= |c| && forall x :: from <= x < to ==> c[x] == Cell(ar, n, a, b, x, k)
  }

  lemma RowStart(n: nat, i: nat)
    ensures At(n, i, n) == At(n, i + 1, 0) && At(n, n, 0) == n * n && At(n, 0, 0) == 0
  {
  }

  // ---- the two nests ----

  /** The innermost loop: one cell's running sum. */
  method SumOfTerms<T>(ar: Arith<T>, n: nat, a: array<T>, b: array<T>, i: nat, j: nat) returns (sum: T)
    requires a.Length == b.Length == n * n && i < n && j < n
    ensures sum == Cell(ar, n, a[..], b[..], At(n, i, j), n)
  {
    hide Cell, Dot, At;
    CellStarts(ar, n, a[..], b[..], At(n, i, j));
    sum := ar.zero;
    for k := 0 to n
      invariant sum == Cell(ar, n, a[..], b[..], At(n, i, j), k)
    {
      CellStep(ar, n, a[..], b[..], i, j, k);
      sum := ar.add(sum, ar.mul(a[At(n, i, k)], b[At(n, k, j)]));
    }
  }

  /** Row by row, cell by cell, a running sum stored once. */
  method MultiplyIjk<T>(ar: Arith<T>, n: nat, a: array<T>, b: array<T>, c: array<T>)
    requires a.Length == b.Length == c.Length == n * n && c != a && c != b
    modifies c
    ensures Filled(ar, n, a[..], b[..], c[..], 0, n * n, n)
  {
    hide Cell, Dot, At;
    ghost var sa, sb := a[..], b[..];
    RowStart(n, 0);
    for i := 0 to n
      invariant a[..] == sa && b[..] == sb && Filled(ar, n, sa, sb, c[..], 0, At(n, i, 0), n)
    {
      for j := 0 to n
        invariant a[..] == sa && b[..] == sb && Filled(ar, n, sa, sb, c[..], 0, At(n, i, j), n)
      {
        AtInRange(n, i, j);
        NextAt(n, i, j);
        c[At(n, i, j)] := SumOfTerms(ar, n, a, b, i, j);
      }
      RowStart(n, i);
      assert At(n, i, n) == At(n, i + 1, 0);
    }
  }

  lemma NextAt(n: nat, i: nat, j: nat)
    ensures At(n, i, j + 1) == At(n, i, j) + 1
  {
  }

  /** Row by row, term by term, each added to a whole row of cells. */
  method MultiplyIkj<T>(ar: Arith<T>, n: nat, a: array<T>, b: array<T>, c: array<T>)
    requires a.Length == b.Length == c.Length == n * n && c != a && c != b
    modifies c
    ensures Filled(ar, n, a[..], b[..], c[..], 0, n * n, n)
  {
    hide Cell, Dot, At;
    ghost var sa, sb := a[..], b[..];
    for x := 0 to n * n
      invariant a[..] == sa && b[..] == sb && Filled(ar, n, sa, sb, c[..], 0, x, 0)
    {
      CellStarts(ar, n, sa, sb, x);
      c[x] := ar.zero;
    }
    RowStart(n, 0);
    for i := 0 to n
      invariant a[..] == sa && b[..] == sb
      invariant Filled(ar, n, sa, sb, c[..], 0, At(n, i, 0), n) && Filled(ar, n, sa, sb, c[..], At(n, i, 0), n * n, 0)
    {
      AtInRange(n, i, 0);
      RowStart(n, i);
      for k := 0 to n
        invariant a[..] == sa && b[..] == sb
        invariant Filled(ar, n, sa, sb, c[..], 0, At(n, i, 0), n)
        invariant Filled(ar, n, sa, sb, c[..], At(n, i, 0), At(n, i + 1, 0), k)
        invariant Filled(ar, n, sa, sb, c[..], At(n, i + 1, 0), n * n, 0)
      {
        AtInRange(n, i, k);
        var r := a[At(n, i, k)];
        for j := 0 to n
          invariant a[..] == sa && b[..] == sb
          invariant Filled(ar, n, sa, sb, c[..], 0, At(n, i, 0), n)
          invariant Filled(ar, n, sa, sb, c[..], At(n, i, 0), At(n, i, j), k + 1)
          invariant Filled(ar, n, sa, sb, c[..], At(n, i, j), At(n, i + 1, 0), k)
          invariant Filled(ar, n, sa, sb, c[..], At(n, i + 1, 0), n * n, 0)
        {
          AtInRange(n, i, j);
          NextAt(n, i, j);
          RowBounds(n, i, j);
          CellStep(ar, n, sa, sb, i, j, k);
          c[At(n, i, j)] := ar.add(c[At(n, i, j)], ar.mul(r, b[At(n, k, j)]));
        }
      }
    }
    RowStart(n, n);
  }

  lemma RowBounds(n: nat, i: nat, j: nat)
    ensures At(n, i, 0) <= At(n, i, j)
  {
  }

  /** Whatever the arithmetic, both nests leave the same array. */
  method Interchange<T>(ar: Arith<T>, n: nat, a: array<T>, b: array<T>, c: array<T>, d: array<T>)
    requires a.Length == b.Length == c.Length == d.Length == n * n
    requires c != a && c != b && d != a && d != b && c != d
    modifies c, d
    ensures c[..] == d[..]
    ensures a[..] == old(a[..]) && b[..] == old(b[..])
    ensures forall i, j :: 0 <= i < n && 0 <= j < n ==>
      At(n, i, j) < n * n && c[At(n, i, j)] == Dot(ar, n, a[..], b[..], i, j, n)
  {
    MultiplyIjk(ar, n, a, b, c);
    MultiplyIkj(ar, n, a, b, d);
    forall i, j | 0 <= i < n && 0 <= j < n
      ensures At(n, i, j) < n * n && c[At(n, i, j)] == Dot(ar, n, a[..], b[..], i, j, n)
    {
      AtInRange(n, i, j);
      CellAt(ar, n, a[..], b[..], i, j, n);
    }
  }
}
