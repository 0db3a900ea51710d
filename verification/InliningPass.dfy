/** Bounded recursive self-inlining leaves the same function, and grows it to its budget and under twice that. */
module InliningPass {
  import opened Options
  import opened RecursiveInline

  // ---- one inlining ----

  /** `e'` is `e` with some of its self-calls replaced by copies of `f`. */
  ghost predicate Unfolds(f: Expr, e: Expr, e': Expr)
    decreases e
  {
    match e
    case Lit(_) => e' == e
    case Param(_) => e' == e
    case Bin(op, l, r) => e'.Bin? && e'.op == op && Unfolds(f, l, e'.left) && Unfolds(f, r, e'.right)
    case If(c, t, s) => e'.If? && Unfolds(f, c, e'.cond) && Unfolds(f, t, e'.thn) && Unfolds(f, s, e'.els)
    case Call(args) => (e'.Call? || (e'.Inlined? && e'.body == f)) && UnfoldsArgs(f, args, e'.args)
    case Inlined(args, b) => e'.Inlined? && UnfoldsArgs(f, args, e'.args) && Unfolds(f, b, e'.body)
  }

  ghost predicate UnfoldsArgs(f: Expr, a: Args, a': Args)
    decreases a
  {
    match a
    case Nil => a' == Nil
    case Cons(e, rest) => a'.Cons? && Unfolds(f, e, a'.head) && UnfoldsArgs(f, rest, a'.tail)
  }

  lemma {:induction false} UnfoldsRefl(f: Expr, e: Expr)
    ensures Unfolds(f, e, e)
  {
    match e
    case Lit(_) =>
    case Param(_) =>
    case Bin(_, l, r) => UnfoldsRefl(f, l); UnfoldsRefl(f, r);
    case If(c, t, s) => UnfoldsRefl(f, c); UnfoldsRefl(f, t); UnfoldsRefl(f, s);
    case Call(args) => UnfoldsArgsRefl(f, args);
    case Inlined(args, b) => UnfoldsArgsRefl(f, args); UnfoldsRefl(f, b);
  }

  lemma {:induction false} UnfoldsArgsRefl(f: Expr, a: Args)
    ensures UnfoldsArgs(f, a, a)
  {
    match a
    case Nil =>
    case Cons(e, rest) => UnfoldsRefl(f, e); UnfoldsArgsRefl(f, rest);
  }

  /** Forward: with calls running the unfolded body `g`, the same fuel gives the same answer. */
  lemma {:induction false} UnfoldingReaches(f: Expr, g: Expr, e: Expr, e': Expr, env: seq<int>, mem: Memory, n: nat)
    requires Unfolds(f, f, g) && Unfolds(f, e, e') && Eval(f, e, env, mem, n).Got?
    ensures Eval(g, e', env, mem, n) == Eval(f, e, env, mem, n)
    decreases n, 0, e
  {
    match e
    case Lit(_) =>
    case Param(_) =>
    case Bin(_, l, r) =>
      UnfoldingReaches(f, g, l, e'.left, env, mem, n);
      UnfoldingReaches(f, g, r, e'.right, env, Eval(f, l, env, mem, n).mem, n);
    case If(c, t, s) =>
      UnfoldingReaches(f, g, c, e'.cond, env, mem, n);
      var r := Eval(f, c, env, mem, n);
      UnfoldingReaches(f, g, if r.value != 0 then t else s, if r.value != 0 then e'.thn else e'.els, env, r.mem, n);
    case Call(args) =>
      UnfoldingArgsReaches(f, g, args, e'.args, env, mem, n);
      var r := EvalArgs(f, args, env, mem, n);
      UnfoldedCallReaches(f, g, e'.Call?, r.value, r.mem, n - 1);
    case Inlined(args, b) =>
      UnfoldingArgsReaches(f, g, args, e'.args, env, mem, n);
      var r := EvalArgs(f, args, env, mem, n);
      UnfoldingReaches(f, g, b, e'.body, r.value, r.mem, n);
  }

  /** What a call left alone, and one replaced, run once the arguments are known. */
  lemma {:induction false} UnfoldedCallReaches(f: Expr, g: Expr, kept: bool, vs: seq<int>, mem: Memory, n: nat)
    requires Unfolds(f, f, g) && Eval(f, f, vs, mem, n).Got?
    ensures (if kept then Eval(g, g, vs, mem, n) else Eval(g, f, vs, mem, n + 1)) == Eval(f, f, vs, mem, n)
    decreases n, 1
  {
    if kept {
      UnfoldingReaches(f, g, f, g, vs, mem, n);
    } else {
      UnfoldsRefl(f, f);
      UnfoldingReaches(f, g, f, f, vs, mem, n);
      MoreFuel(g, f, vs, mem, n, n + 1);
    }
  }

  lemma {:induction false} UnfoldingArgsReaches(f: Expr, g: Expr, a: Args, a': Args, env: seq<int>, mem: Memory, n: nat)
    requires Unfolds(f, f, g) && UnfoldsArgs(f, a, a') && EvalArgs(f, a, env, mem, n).Got?
    ensures EvalArgs(g, a', env, mem, n) == EvalArgs(f, a, env, mem, n)
    decreases n, 0, a
  {
    match a
    case Nil =>
    case Cons(e, rest) =>
      UnfoldingReaches(f, g, e, a'.head, env, mem, n);
      UnfoldingArgsReaches(f, g, rest, a'.tail, env, Eval(f, e, env, mem, n).mem, n);
  }

  /** Backward: a copied body costs the original one call more, so twice the fuel is enough. */
  lemma {:induction false} FoldingReaches(f: Expr, g: Expr, e: Expr, e': Expr, env: seq<int>, mem: Memory, n: nat, m: nat)
    requires Unfolds(f, f, g) && Unfolds(f, e, e') && Eval(g, e', env, mem, n).Got?
    requires m >= 2 * n + 1 || (e == e' && m >= 2 * n)
    ensures Eval(f, e, env, mem, m) == Eval(g, e', env, mem, n)
    decreases n, 0, e'
  {
    match e
    case Lit(_) =>
    case Param(_) =>
    case Bin(_, l, r) =>
      FoldingReaches(f, g, l, e'.left, env, mem, n, m);
      FoldingReaches(f, g, r, e'.right, env, Eval(g, e'.left, env, mem, n).mem, n, m);
    case If(c, t, s) =>
      FoldingReaches(f, g, c, e'.cond, env, mem, n, m);
      var r := Eval(g, e'.cond, env, mem, n);
      FoldingReaches(f, g, if r.value != 0 then t else s, if r.value != 0 then e'.thn else e'.els, env, r.mem, n, m);
    case Call(args) =>
      FoldingArgsReaches(f, g, args, e'.args, env, mem, n, m);
      var r := EvalArgs(g, e'.args, env, mem, n);
      if e'.Call? {
        FoldedCallReaches(f, g, r.value, r.mem, n - 1, m - 1);
      } else {
        UnfoldsRefl(f, f);
        FoldingReaches(f, g, f, e'.body, r.value, r.mem, n, m - 1);
      }
    case Inlined(args, b) =>
      FoldingArgsReaches(f, g, args, e'.args, env, mem, n, m);
      var r := EvalArgs(g, e'.args, env, mem, n);
      FoldingReaches(f, g, b, e'.body, r.value, r.mem, n, m);
  }

  lemma {:induction false} FoldedCallReaches(f: Expr, g: Expr, vs: seq<int>, mem: Memory, n: nat, m: nat)
    requires Unfolds(f, f, g) && Eval(g, g, vs, mem, n).Got? && m >= 2 * n + 1
    ensures Eval(f, f, vs, mem, m) == Eval(g, g, vs, mem, n)
    decreases n, 1
  {
    FoldingReaches(f, g, f, g, vs, mem, n, m);
  }

  lemma {:induction false} FoldingArgsReaches(f: Expr, g: Expr, a: Args, a': Args, env: seq<int>, mem: Memory, n: nat, m: nat)
    requires Unfolds(f, f, g) && UnfoldsArgs(f, a, a') && EvalArgs(g, a', env, mem, n).Got?
    requires m >= 2 * n + 1 || (a == a' && m >= 2 * n)
    ensures EvalArgs(f, a, env, mem, m) == EvalArgs(g, a', env, mem, n)
    decreases n, 0, a'
  {
    match a
    case Nil =>
    case Cons(e, rest) =>
      FoldingReaches(f, g, e, a'.head, env, mem, n, m);
      FoldingArgsReaches(f, g, rest, a'.tail, env, Eval(g, a'.head, env, mem, n).mem, n, m);
  }

  /** Replacing any of a body's self-calls by copies of that body leaves the same function. */
  lemma UnfoldingIsSameFunction(f: Expr, g: Expr)
    requires Unfolds(f, f, g)
    ensures SameFunction(f, g)
  {
    forall args, mem, v, mem' ensures Terminates(f, args, mem, v, mem') <==> Terminates(g, args, mem, v, mem') {
      if Terminates(f, args, mem, v, mem') {
        var n: nat :| Eval(f, f, args, mem, n) == Got(v, mem');
        UnfoldingReaches(f, g, f, g, args, mem, n);
      }
      if Terminates(g, args, mem, v, mem') {
        var n: nat :| Eval(g, g, args, mem, n) == Got(v, mem');
        FoldingReaches(f, g, f, g, args, mem, n, 2 * n + 1);
      }
    }
  }

  // ---- call sites ----

  /** Child indices from the root; an inlined block's body comes after its arguments. */
  type Path = seq<nat>

  function Arity(a: Args): nat { match a case Nil => 0 case Cons(_, rest) => 1 + Arity(rest) }

  predicate IsSite(e: Expr, p: Path)
    decreases e
  {
    match e
    case Lit(_) => false
    case Param(_) => false
    case Bin(_, l, r) => p != [] && ((p[0] == 0 && IsSite(l, p[1..])) || (p[0] == 1 && IsSite(r, p[1..])))
    case If(c, t, s) =>
      p != [] && ((p[0] == 0 && IsSite(c, p[1..])) || (p[0] == 1 && IsSite(t, p[1..])) || (p[0] == 2 && IsSite(s, p[1..])))
    case Call(args) => p == [] || IsSiteArgs(args, p[0], p[1..])
    case Inlined(args, b) => p != [] && (IsSiteArgs(args, p[0], p[1..]) || (p[0] == Arity(args) && IsSite(b, p[1..])))
  }

  predicate IsSiteArgs(a: Args, k: nat, p: Path)
    decreases a
  {
    match a
    case Nil => false
    case Cons(e, rest) => if k == 0 then IsSite(e, p) else IsSiteArgs(rest, k - 1, p)
  }

  /** Replace the call at `p` by a copy of `b`. */
  function InlineAt(e: Expr, p: Path, b: Expr): Expr
    requires IsSite(e, p)
    decreases e
  {
    match e
    case Bin(op, l, r) => if p[0] == 0 then Bin(op, InlineAt(l, p[1..], b), r) else Bin(op, l, InlineAt(r, p[1..], b))
    case If(c, t, s) =>
      if p[0] == 0 then If(InlineAt(c, p[1..], b), t, s)
      else if p[0] == 1 then If(c, InlineAt(t, p[1..], b), s)
      else If(c, t, InlineAt(s, p[1..], b))
    case Call(args) => if p == [] then Inlined(args, b) else Call(InlineAtArgs(args, p[0], p[1..], b))
    case Inlined(args, c) =>
      if IsSiteArgs(args, p[0], p[1..]) then Inlined(InlineAtArgs(args, p[0], p[1..], b), c)
      else Inlined(args, InlineAt(c, p[1..], b))
  }

  function InlineAtArgs(a: Args, k: nat, p: Path, b: Expr): Args
    requires IsSiteArgs(a, k, p)
    decreases a
  {
    if k == 0 then Cons(InlineAt(a.head, p, b), a.tail) else Cons(a.head, InlineAtArgs(a.tail, k - 1, p, b))
  }

  function Under(k: nat, ps: seq<Path>): seq<Path>
  {
    seq(|ps|, i requires 0 <= i < |ps| => [k] + ps[i])
  }

  /** Every self-call, in the order it is executed. */
  function Sites(e: Expr): seq<Path>
  {
    match e
    case Lit(_) => []
    case Param(_) => []
    case Bin(_, l, r) => Under(0, Sites(l)) + Under(1, Sites(r))
    case If(c, t, s) => Under(0, Sites(c)) + Under(1, Sites(t)) + Under(2, Sites(s))
    case Call(args) => SitesArgs(args, 0) + [[]]
    case Inlined(args, b) => SitesArgs(args, 0) + Under(Arity(args), Sites(b))
  }

  function SitesArgs(a: Args, k: nat): seq<Path>
  {
    match a
    case Nil => []
    case Cons(e, rest) => Under(k, Sites(e)) + SitesArgs(rest, k + 1)
  }

  lemma InUnder(k: nat, ps: seq<Path>, p: Path)
    ensures p in Under(k, ps) <==> p != [] && p[0] == k && p[1..] in ps
  {
    if p in Under(k, ps) {
      var i :| 0 <= i < |ps| && p == [k] + ps[i];
      assert p[1..] == ps[i];
    }
    if p != [] && p[0] == k && p[1..] in ps {
      var i :| 0 <= i < |ps| && ps[i] == p[1..];
      assert Under(k, ps)[i] == [k] + p[1..] == p;
    }
  }

  /** The collected sites are exactly the self-calls. */
  lemma {:induction false} SitesAreCalls(e: Expr, p: Path)
    ensures p in Sites(e) <==> IsSite(e, p)
    decreases e
  {
    var q := if p == [] then [] else p[1..];
    match e
    case Lit(_) =>
    case Param(_) =>
    case Bin(_, l, r) =>
      InUnder(0, Sites(l), p); InUnder(1, Sites(r), p);
      SitesAreCalls(l, q); SitesAreCalls(r, q);
    case If(c, t, s) =>
      InUnder(0, Sites(c), p); InUnder(1, Sites(t), p); InUnder(2, Sites(s), p);
      SitesAreCalls(c, q); SitesAreCalls(t, q); SitesAreCalls(s, q);
    case Call(args) => SitesAreCallsArgs(args, 0, p);
    case Inlined(args, b) =>
      SitesAreCallsArgs(args, 0, p);
      InUnder(Arity(args), Sites(b), p);
      SitesAreCalls(b, q);
  }

  lemma {:induction false} SitesAreCallsArgs(a: Args, k: nat, p: Path)
    ensures p in SitesArgs(a, k) <==> p != [] && p[0] >= k && IsSiteArgs(a, p[0] - k, p[1..])
    decreases a
  {
    match a
    case Nil =>
    case Cons(e, rest) =>
      InUnder(k, Sites(e), p);
      SitesAreCallsArgs(rest, k + 1, p);
      if p != [] {
        SitesAreCalls(e, p[1..]);
      }
  }

  /** The call at `p` is executed before the one at `q`: operands from the left, arguments before
      the call, arguments before the body. */
  predicate Before(p: Path, q: Path)
  {
    p != [] && (q == [] || p[0] < q[0] || (p[0] == q[0] && Before(p[1..], q[1..])))
  }

  ghost predicate InOrder(ps: seq<Path>)
  {
    forall i, j :: 0 <= i < j < |ps| ==> Before(ps[i], ps[j])
  }

  lemma {:induction false} NotBeforeItself(p: Path)
    ensures !Before(p, p)
  {
    if p != [] { NotBeforeItself(p[1..]); }
  }

  lemma InOrderConcat(ps: seq<Path>, qs: seq<Path>)
    requires InOrder(ps) && InOrder(qs) && forall p, q :: p in ps && q in qs ==> p != [] && (q == [] || p[0] < q[0])
    ensures InOrder(ps + qs)
  {
    var r := ps + qs;
    forall i, j | 0 <= i < j < |r| ensures Before(r[i], r[j]) {
      if i < |ps| && |ps| <= j {
        assert r[i] in ps && r[j] in qs;
      }
    }
  }

  lemma InOrderUnder(k: nat, ps: seq<Path>)
    requires InOrder(ps)
    ensures InOrder(Under(k, ps)) && forall p :: p in Under(k, ps) ==> p != [] && p[0] == k
  {
    var r := Under(k, ps);
    forall i, j | 0 <= i < j < |r| ensures Before(r[i], r[j]) {
      assert r[i][1..] == ps[i] && r[j][1..] == ps[j];
    }
  }

  /** The sites are collected in the order the calls are executed. */
  lemma {:induction false} SitesInOrder(e: Expr)
    ensures InOrder(Sites(e))
  {
    hide InOrder, Before;
    match e
    case Lit(_) => NoSitesInOrder();
    case Param(_) => NoSitesInOrder();
    case Bin(_, l, r) =>
      SitesInOrder(l); SitesInOrder(r);
      InOrderUnder(0, Sites(l)); InOrderUnder(1, Sites(r));
      InOrderConcat(Under(0, Sites(l)), Under(1, Sites(r)));
    case If(c, t, s) =>
      SitesInOrder(c); SitesInOrder(t); SitesInOrder(s);
      InOrderUnder(0, Sites(c)); InOrderUnder(1, Sites(t)); InOrderUnder(2, Sites(s));
      InOrderConcat(Under(0, Sites(c)), Under(1, Sites(t)));
      InOrderConcat(Under(0, Sites(c)) + Under(1, Sites(t)), Under(2, Sites(s)));
    case Call(args) =>
      SitesArgsInOrder(args, 0);
      NoSitesInOrder();
      InOrderConcat(SitesArgs(args, 0), [[]]);
    case Inlined(args, b) =>
      SitesArgsInOrder(args, 0);
      SitesInOrder(b);
      InOrderUnder(Arity(args), Sites(b));
      InOrderConcat(SitesArgs(args, 0), Under(Arity(args), Sites(b)));
  }

  lemma NoSitesInOrder()
    ensures InOrder([]) && InOrder([[]])
  {
  }

  lemma {:induction false} SitesArgsInOrder(a: Args, k: nat)
    ensures InOrder(SitesArgs(a, k)) && forall p :: p in SitesArgs(a, k) ==> p != [] && k <= p[0] < k + Arity(a)
  {
    hide InOrder, Before;
    match a
    case Nil => NoSitesInOrder();
    case Cons(e, rest) =>
      SitesInOrder(e);
      InOrderUnder(k, Sites(e));
      SitesArgsInOrder(rest, k + 1);
      InOrderConcat(Under(k, Sites(e)), SitesArgs(rest, k + 1));
  }

  /** So none is collected twice. */
  lemma SitesDistinct(e: Expr)
    ensures forall i, j :: 0 <= i < j < |Sites(e)| ==> Sites(e)[i] != Sites(e)[j]
  {
    SitesInOrder(e);
    forall i, j | 0 <= i < j < |Sites(e)| ensures Sites(e)[i] != Sites(e)[j] {
      NotBeforeItself(Sites(e)[i]);
    }
  }

  // ---- what one inlining does to the body ----

  lemma {:induction false} InliningUnfolds(f: Expr, e: Expr, p: Path)
    requires IsSite(e, p)
    ensures Unfolds(f, e, InlineAt(e, p, f)) && Size(InlineAt(e, p, f)) == Size(e) + Size(f)
    decreases e, 1
  {
    match e
    case Bin(_, l, r) =>
      UnfoldsRefl(f, l); UnfoldsRefl(f, r);
      InliningUnfolds(f, if p[0] == 0 then l else r, p[1..]);
    case If(_, _, _) => InliningUnfoldsIf(f, e, p);
    case Call(args) =>
      UnfoldsArgsRefl(f, args);
      if p != [] { InliningUnfoldsArgs(f, args, p[0], p[1..]); }
    case Inlined(_, _) => InliningUnfoldsInlined(f, e, p);
  }

  lemma {:induction false} InliningUnfoldsInlined(f: Expr, e: Expr, p: Path)
    requires IsSite(e, p) && e.Inlined?
    ensures Unfolds(f, e, InlineAt(e, p, f)) && Size(InlineAt(e, p, f)) == Size(e) + Size(f)
    decreases e, 0
  {
    var Inlined(args, b) := e;
    UnfoldsArgsRefl(f, args);
    UnfoldsRefl(f, b);
    if IsSiteArgs(args, p[0], p[1..]) {
      InliningUnfoldsArgs(f, args, p[0], p[1..]);
    } else {
      InliningUnfolds(f, b, p[1..]);
    }
  }

  lemma {:induction false} InliningUnfoldsIf(f: Expr, e: Expr, p: Path)
    requires IsSite(e, p) && e.If?
    ensures Unfolds(f, e, InlineAt(e, p, f)) && Size(InlineAt(e, p, f)) == Size(e) + Size(f)
    decreases e, 0
  {
    var If(c, t, s) := e;
    UnfoldsRefl(f, c); UnfoldsRefl(f, t); UnfoldsRefl(f, s);
    InliningUnfolds(f, if p[0] == 0 then c else if p[0] == 1 then t else s, p[1..]);
  }

  lemma {:induction false} InliningUnfoldsArgs(f: Expr, a: Args, k: nat, p: Path)
    requires IsSiteArgs(a, k, p)
    ensures UnfoldsArgs(f, a, InlineAtArgs(a, k, p, f)) && SizeArgs(InlineAtArgs(a, k, p, f)) == SizeArgs(a) + Size(f)
    ensures Arity(InlineAtArgs(a, k, p, f)) == Arity(a)
    decreases a, 1
  {
    UnfoldsRefl(f, a.head);
    UnfoldsArgsRefl(f, a.tail);
    if k == 0 { InliningUnfolds(f, a.head, p); } else { InliningUnfoldsArgs(f, a.tail, k - 1, p); }
  }

  /** The other collected sites are still calls afterwards. */
  lemma {:induction false} OtherSitesStay(e: Expr, p: Path, b: Expr, q: Path)
    requires IsSite(e, p) && IsSite(e, q) && p != q
    ensures IsSite(InlineAt(e, p, b), q)
    decreases e
  {
    match e
    case Bin(_, l, r) =>
      assert p == [p[0]] + p[1..] && q == [q[0]] + q[1..];
      if p[0] == q[0] { OtherSitesStay(if p[0] == 0 then l else r, p[1..], b, q[1..]); }
    case If(c, t, s) =>
      assert p == [p[0]] + p[1..] && q == [q[0]] + q[1..];
      if p[0] == q[0] { OtherSitesStay(if p[0] == 0 then c else if p[0] == 1 then t else s, p[1..], b, q[1..]); }
    case Call(args) =>
      if p != [] && q != [] {
        assert p == [p[0]] + p[1..] && q == [q[0]] + q[1..];
        OtherSitesStayArgs(args, p[0], p[1..], b, q[0], q[1..]);
      }
    case Inlined(args, c) =>
      assert p == [p[0]] + p[1..] && q == [q[0]] + q[1..];
      SiteArgInRange(args, p[0], p[1..]);
      SiteArgInRange(args, q[0], q[1..]);
      if IsSiteArgs(args, p[0], p[1..]) {
        InliningUnfoldsArity(args, p[0], p[1..], b);
        if IsSiteArgs(args, q[0], q[1..]) { OtherSitesStayArgs(args, p[0], p[1..], b, q[0], q[1..]); }
      } else if !IsSiteArgs(args, q[0], q[1..]) {
        OtherSitesStay(c, p[1..], b, q[1..]);
      }
  }

  lemma {:induction false} SiteArgInRange(a: Args, k: nat, p: Path)
    ensures IsSiteArgs(a, k, p) ==> k < Arity(a)
  {
    if a.Cons? && k > 0 { SiteArgInRange(a.tail, k - 1, p); }
  }

  lemma {:induction false} InliningUnfoldsArity(a: Args, k: nat, p: Path, b: Expr)
    requires IsSiteArgs(a, k, p)
    ensures Arity(InlineAtArgs(a, k, p, b)) == Arity(a)
    decreases a
  {
    if k > 0 { InliningUnfoldsArity(a.tail, k - 1, p, b); }
  }

  lemma {:induction false} OtherSitesStayArgs(a: Args, k: nat, p: Path, b: Expr, j: nat, q: Path)
    requires IsSiteArgs(a, k, p) && IsSiteArgs(a, j, q) && (k != j || p != q)
    ensures IsSiteArgs(InlineAtArgs(a, k, p, b), j, q)
    decreases a
  {
    if k == 0 && j == 0 {
      OtherSitesStay(a.head, p, b, q);
    } else if k > 0 && j > 0 {
      OtherSitesStayArgs(a.tail, k - 1, p, b, j - 1, q);
    }
  }

  // ---- the node at a path ----

  function ArgAt(a: Args, k: nat): Option<Expr>
  {
    match a
    case Nil => None
    case Cons(e, rest) => if k == 0 then Some(e) else ArgAt(rest, k - 1)
  }

  function ChildAt(e: Expr, k: nat): Option<Expr>
  {
    match e
    case Lit(_) => None
    case Param(_) => None
    case Bin(_, l, r) => if k == 0 then Some(l) else if k == 1 then Some(r) else None
    case If(c, t, s) => if k == 0 then Some(c) else if k == 1 then Some(t) else if k == 2 then Some(s) else None
    case Call(args) => ArgAt(args, k)
    case Inlined(args, b) => if k == Arity(args) then Some(b) else ArgAt(args, k)
  }

  function NodeAt(e: Expr, p: Path): Option<Expr>
    decreases |p|
  {
    if p == [] then Some(e)
    else
      match ChildAt(e, p[0])
      case None => None
      case Some(x) => NodeAt(x, p[1..])
  }

  predicate CallAt(e: Expr, p: Path) { NodeAt(e, p).Some? && NodeAt(e, p).value.Call? }
  predicate CopyAt(e: Expr, p: Path) { NodeAt(e, p).Some? && NodeAt(e, p).value.Inlined? }

  lemma {:induction false} ArgInRange(a: Args, k: nat)
    ensures ArgAt(a, k).Some? <==> k < Arity(a)
  {
    if a.Cons? && k > 0 { ArgInRange(a.tail, k - 1); }
  }

  lemma {:induction false} SiteInArg(a: Args, k: nat, p: Path)
    ensures IsSiteArgs(a, k, p) <==> ArgAt(a, k).Some? && IsSite(ArgAt(a, k).value, p)
  {
    if a.Cons? && k > 0 { SiteInArg(a.tail, k - 1, p); }
  }

  /** A site is a path to a self-call. */
  lemma {:induction false} SiteMeansCall(e: Expr, p: Path)
    ensures IsSite(e, p) <==> CallAt(e, p)
    decreases |p|
  {
    if p != [] {
      if ChildAt(e, p[0]).Some? { SiteMeansCall(ChildAt(e, p[0]).value, p[1..]); }
      match e
      case Call(args) => SiteInArg(args, p[0], p[1..]);
      case Inlined(args, _) =>
        SiteInArg(args, p[0], p[1..]);
        ArgInRange(args, p[0]);
      case _ =>
    }
  }

  lemma {:induction false} ArgAfter(a: Args, k: nat, p: Path, b: Expr, j: nat)
    requires IsSiteArgs(a, k, p)
    ensures ArgAt(a, k).Some? && IsSite(ArgAt(a, k).value, p) && Arity(InlineAtArgs(a, k, p, b)) == Arity(a)
    ensures ArgAt(InlineAtArgs(a, k, p, b), j) == if j == k then Some(InlineAt(ArgAt(a, k).value, p, b)) else ArgAt(a, j)
  {
    if k > 0 { ArgAfter(a.tail, k - 1, p, b, if j > 0 then j - 1 else 0); }
    if k > 0 && j == 0 { ArgInRange(a, k); }
  }

  predicate SameKind(x: Expr, y: Expr) { x.Call? == y.Call? && x.Inlined? == y.Inlined? }

  /** Inlining below a node keeps its kind and every child but the one on the way. */
  lemma ChildAfter(e: Expr, p: Path, b: Expr, j: nat)
    requires IsSite(e, p) && p != []
    ensures SameKind(e, InlineAt(e, p, b))
    ensures ChildAt(e, p[0]).Some? && IsSite(ChildAt(e, p[0]).value, p[1..])
    ensures ChildAt(InlineAt(e, p, b), j) == if j == p[0] then Some(InlineAt(ChildAt(e, p[0]).value, p[1..], b)) else ChildAt(e, j)
  {
    match e
    case Call(args) => ArgAfter(args, p[0], p[1..], b, j);
    case Inlined(args, c) =>
      SiteInArg(args, p[0], p[1..]);
      ArgInRange(args, p[0]);
      if IsSiteArgs(args, p[0], p[1..]) { ArgAfter(args, p[0], p[1..], b, j); }
    case _ =>
  }

  /** At the site there is now a copy of `b`. */
  lemma {:induction false} CopyAppears(e: Expr, p: Path, b: Expr)
    requires IsSite(e, p)
    ensures CopyAt(InlineAt(e, p, b), p) && NodeAt(InlineAt(e, p, b), p).value.body == b
    decreases |p|
  {
    if p != [] {
      ChildAfter(e, p, b, p[0]);
      CopyAppears(ChildAt(e, p[0]).value, p[1..], b);
    }
  }

  /** Every other node is where it was, a call if it was a call and a copy if it was a copy. */
  lemma {:induction false} OtherNodesStay(e: Expr, p: Path, b: Expr, q: Path)
    requires IsSite(e, p) && p != q && NodeAt(e, q).Some?
    ensures NodeAt(InlineAt(e, p, b), q).Some? && SameKind(NodeAt(e, q).value, NodeAt(InlineAt(e, p, b), q).value)
    decreases |q|
  {
    if q == [] {
      ChildAfter(e, p, b, 0);
    } else if p == [] {
      ArgInRange(e.args, q[0]);
    } else {
      ChildAfter(e, p, b, q[0]);
      if q[0] == p[0] {
        assert p == [p[0]] + p[1..] && q == [q[0]] + q[1..];
        OtherNodesStay(ChildAt(e, p[0]).value, p[1..], b, q[1..]);
      }
    }
  }

  lemma ChildIsNode(e: Expr, k: nat)
    ensures NodeAt(e, [k]) == ChildAt(e, k)
  {
    assert [k][1..] == [];
  }

  lemma {:induction false} NodeBelow(e: Expr, p: Path, q: Path)
    requires NodeAt(e, p).Some?
    ensures NodeAt(e, p + q) == NodeAt(NodeAt(e, p).value, q)
    decreases |p|
  {
    if p == [] {
      assert p + q == q;
    } else {
      assert (p + q)[0] == p[0] && (p + q)[1..] == p[1..] + q;
      NodeBelow(ChildAt(e, p[0]).value, p[1..], q);
    }
  }

  /** A body that calls itself still does after one of its calls is replaced by a copy of it. */
  lemma CallsRemain(e: Expr, p: Path)
    requires IsSite(e, p)
    ensures Sites(InlineAt(e, p, e)) != []
  {
    var g := InlineAt(e, p, e);
    CopyAppears(e, p, e);
    var copy := NodeAt(g, p).value;
    var q := p + ([Arity(copy.args)] + p);
    NodeBelow(g, p, [Arity(copy.args)] + p);
    assert ([Arity(copy.args)] + p)[1..] == p;
    SiteMeansCall(e, p);
    SiteMeansCall(g, q);
    SitesAreCalls(g, q);
  }

  // ---- the pass ----

  /** A self-call that is directly an argument of a self-call. */
  predicate Nested(e: Expr)
  {
    match e
    case Lit(_) => false
    case Param(_) => false
    case Bin(_, l, r) => Nested(l) || Nested(r)
    case If(c, t, s) => Nested(c) || Nested(t) || Nested(s)
    case Call(args) => NestedArgs(args, true)
    case Inlined(args, b) => NestedArgs(args, false) || Nested(b)
  }

  predicate NestedArgs(a: Args, inCall: bool)
  {
    match a
    case Nil => false
    case Cons(e, rest) => (inCall && e.Call?) || Nested(e) || NestedArgs(rest, inCall)
  }

  /** Nested means: some call has a call for its direct argument. */
  lemma NestedMeans(e: Expr)
    ensures Nested(e) <==> exists p, k: nat :: NestsAt(e, p, k)
  {
    if Nested(e) {
      var p, k := NestedSomewhere(e);
    }
    forall p, k: nat | NestsAt(e, p, k) ensures Nested(e) {
      NestsAtMeans(e, p, k);
    }
  }

  /** The call at `p` has a call for its argument `k`. */
  predicate NestsAt(e: Expr, p: Path, k: nat) { CallAt(e, p) && CallAt(e, p + [k]) }

  lemma {:induction false} NestedSomewhere(e: Expr) returns (p: Path, k: nat)
    requires Nested(e)
    ensures NestsAt(e, p, k)
    decreases e
  {
    match e
    case Bin(_, l, r) =>
      p, k := NestedSomewhere(if Nested(l) then l else r);
      p := NestsBelow(e, if Nested(l) then 0 else 1, p, k);
    case If(c, t, s) =>
      p, k := NestedSomewhere(if Nested(c) then c else if Nested(t) then t else s);
      p := NestsBelow(e, if Nested(c) then 0 else if Nested(t) then 1 else 2, p, k);
    case Call(args) =>
      var j := NestedArg(args, true);
      if ArgAt(args, j).value.Call? {
        p, k := [], j;
        assert [] + [j] == [j];
        ChildIsNode(e, j);
      } else {
        p, k := NestedSomewhere(ArgAt(args, j).value);
        p := NestsBelow(e, j, p, k);
      }
    case Inlined(args, b) =>
      if NestedArgs(args, false) {
        var j := NestedArg(args, false);
        ArgInRange(args, j);
        p, k := NestedSomewhere(ArgAt(args, j).value);
        p := NestsBelow(e, j, p, k);
      } else {
        p, k := NestedSomewhere(b);
        p := NestsBelow(e, Arity(args), p, k);
      }
  }

  lemma NestsBelow(e: Expr, j: nat, q: Path, k: nat) returns (p: Path)
    requires ChildAt(e, j).Some? && NestsAt(ChildAt(e, j).value, q, k)
    ensures p == [j] + q && NestsAt(e, p, k)
  {
    p := [j] + q;
    assert p[1..] == q && (p + [k])[1..] == q + [k] && (p + [k])[0] == j;
  }

  lemma {:induction false} NestedArg(a: Args, inCall: bool) returns (j: nat)
    requires NestedArgs(a, inCall)
    ensures ArgAt(a, j).Some? && ArgAt(a, j).value < a && ((inCall && ArgAt(a, j).value.Call?) || Nested(ArgAt(a, j).value))
  {
    if (inCall && a.head.Call?) || Nested(a.head) {
      j := 0;
    } else {
      j := NestedArg(a.tail, inCall);
      j := j + 1;
    }
  }

  lemma {:induction false} ArgNests(a: Args, inCall: bool, j: nat)
    requires ArgAt(a, j).Some? && ((inCall && ArgAt(a, j).value.Call?) || Nested(ArgAt(a, j).value))
    ensures NestedArgs(a, inCall)
  {
    if j > 0 { ArgNests(a.tail, inCall, j - 1); }
  }

  lemma {:induction false} NestsAtMeans(e: Expr, p: Path, k: nat)
    requires NestsAt(e, p, k)
    ensures Nested(e)
    decreases |p|
  {
    if p == [] {
      assert p + [k] == [k];
      ChildIsNode(e, k);
      ArgNests(e.args, true, k);
    } else {
      assert (p + [k])[0] == p[0] && (p + [k])[1..] == p[1..] + [k];
      NestsAtMeans(ChildAt(e, p[0]).value, p[1..], k);
      match e
      case Call(args) => ArgNests(args, true, p[0]);
      case Inlined(args, _) => if p[0] != Arity(args) { ArgNests(args, false, p[0]); }
      case _ =>
    }
  }

  function Budget(base: nat): nat { if base <= 25 then 700 else 1500 }

  lemma SameFunctionRefl(f: Expr)
    ensures SameFunction(f, f)
  {
  }

  lemma SameFunctionTrans(f: Expr, g: Expr, h: Expr)
    requires SameFunction(f, g) && SameFunction(g, h)
    ensures SameFunction(f, h)
  {
    forall args, mem, v, mem' ensures Terminates(f, args, mem, v, mem') <==> Terminates(h, args, mem, v, mem') {
      assert Terminates(f, args, mem, v, mem') <==> Terminates(g, args, mem, v, mem');
    }
  }

  function Pow2(n: nat): nat { if n == 0 then 1 else 2 * Pow2(n - 1) }

  /** How many of the first `k` sites are accepted. */
  function Accepted(accepts: seq<bool>, k: nat): nat
    requires k <= |accepts|
  {
    if k == 0 then 0 else Accepted(accepts, k - 1) + if accepts[k - 1] then 1 else 0
  }

  lemma {:induction false} AcceptedSome(accepts: seq<bool>, k: nat)
    requires k <= |accepts|
    ensures Accepted(accepts, k) > 0 <==> exists i :: 0 <= i < k && accepts[i]
  {
    if k > 0 { AcceptedSome(accepts, k - 1); }
  }

  /** Of the sites of `f`, those accepted among the first `k` are copies in `g` and the others are calls. */
  ghost predicate RoundTo(f: Expr, g: Expr, accepts: seq<bool>, k: nat)
    requires k <= |Sites(f)| <= |accepts|
  {
    forall i :: 0 <= i < |Sites(f)| ==> if i < k && accepts[i] then CopyAt(g, Sites(f)[i]) else CallAt(g, Sites(f)[i])
  }

  lemma SitesAreCallsAt(f: Expr, accepts: seq<bool>)
    requires |Sites(f)| <= |accepts|
    ensures RoundTo(f, f, accepts, 0)
  {
    forall i | 0 <= i < |Sites(f)| ensures CallAt(f, Sites(f)[i]) {
      SitesAreCalls(f, Sites(f)[i]);
      SiteMeansCall(f, Sites(f)[i]);
    }
  }

  /** One accepted site, the next of the round. */
  lemma RoundStep(f: Expr, g: Expr, accepts: seq<bool>, k: nat)
    requires k < |Sites(f)| <= |accepts| && accepts[k] && RoundTo(f, g, accepts, k)
    ensures IsSite(g, Sites(f)[k])
    ensures
      var h := InlineAt(g, Sites(f)[k], g);
      RoundTo(f, h, accepts, k + 1) && Size(h) == 2 * Size(g) && SameFunction(g, h) && Sites(h) != []
  {
    var p := Sites(f)[k];
    SiteMeansCall(g, p);
    var h := InlineAt(g, p, g);
    InliningUnfolds(g, g, p);
    UnfoldingIsSameFunction(g, h);
    CallsRemain(g, p);
    CopyAppears(g, p, g);
    SitesDistinct(f);
    forall i | 0 <= i < |Sites(f)| && i != k
      ensures NodeAt(h, Sites(f)[i]).Some? && SameKind(NodeAt(g, Sites(f)[i]).value, NodeAt(h, Sites(f)[i]).value)
    {
      assert Sites(f)[i] != p;
      OtherNodesStay(g, p, g, Sites(f)[i]);
    }
  }

  lemma RoundSkips(f: Expr, g: Expr, accepts: seq<bool>, k: nat)
    requires k < |Sites(f)| <= |accepts| && !accepts[k] && RoundTo(f, g, accepts, k)
    ensures RoundTo(f, g, accepts, k + 1)
  {
  }

  /** One round over the sites collected at its start. Whether the inliner accepts a site is its
      own affair; the budget is looked at before each. `k` is how many sites the round came to. */
  method InlineRound(f: Expr, budget: nat, accepts: seq<bool>) returns (g: Expr, didAny: bool, ghost k: nat)
    requires Size(f) < 2 * budget && |accepts| >= |Sites(f)|
    ensures SameFunction(f, g) && Size(g) < 2 * budget && (!didAny ==> g == f)
    ensures k <= |Sites(f)| && (k < |Sites(f)| ==> Size(g) >= budget)
    ensures RoundTo(f, g, accepts, k) && Size(g) == Size(f) * Pow2(Accepted(accepts, k))
    ensures didAny <==> Accepted(accepts, k) > 0
    ensures Size(f) < budget ==> (didAny <==> exists i :: 0 <= i < |Sites(f)| && accepts[i])
    ensures Sites(f) != [] ==> Sites(g) != []
  {
    hide RoundTo, InlineAt, Sites, SameFunction, IsSite, Size;
    var sites := Sites(f);
    g, didAny := f, false;
    SitesAreCallsAt(f, accepts);
    SameFunctionRefl(f);
    k := 0;
    for i := 0 to |sites|
      invariant k == i && SameFunction(f, g) && Size(g) < 2 * budget && (!didAny ==> g == f)
      invariant RoundTo(f, g, accepts, i) && Size(g) == Size(f) * Pow2(Accepted(accepts, i))
      invariant (didAny <==> Accepted(accepts, i) > 0) && (Sites(f) != [] ==> Sites(g) != [])
    {
      if Size(g) >= budget {
        break;
      }
      if accepts[i] {
        RoundStep(f, g, accepts, i);
        var h := InlineAt(g, sites[i], g);
        SameFunctionTrans(f, g, h);
        Doublings(Size(f), Accepted(accepts, i), 1);
        g, didAny := h, true;
      } else {
        RoundSkips(f, g, accepts, i);
      }
      k := i + 1;
    }
    AcceptedSome(accepts, k);
  }

  /** What the pass looks at: small, recursive, and not nested. */
  predicate Eligible(f: Expr) { Size(f) <= 80 && Sites(f) != [] && !Nested(f) }

  /**
   The whole pass over one function. `accepts` answers for every inlining it might attempt. An
   eligible function grows by doublings until the budget is reached or the inliner refuses every
   call that is left; any other is left alone.
   */
  method InlineSelf(f: Expr, accepts: (Expr, nat) -> bool) returns (g: Expr)
    ensures SameFunction(f, g)
    ensures !Eligible(f) ==> g == f
    ensures g != f ==> Size(g) < 2 * Budget(Size(f))
    ensures Eligible(f) ==> Size(g) >= Budget(Size(f)) || forall i :: 0 <= i < |Sites(g)| ==> !accepts(g, i)
    ensures Eligible(f) ==> Sites(g) != []
    ensures Eligible(f) && (forall e, i :: accepts(e, i)) ==>
      if Size(f) <= 25 then 700 <= Size(g) < 1400 else 1500 <= Size(g) < 3000
    ensures exists n :: Size(g) == Size(f) * Pow2(n)
  {
    hide RoundTo, Sites, SameFunction, Size, Nested, Accepted;
    g := f;
    var base := Size(f);
    SameFunctionRefl(f);
    assert Size(g) == Size(f) * Pow2(0);
    if base > 80 || Sites(f) == [] || Nested(f) {
      return;
    }
    var budget := Budget(base);
    ghost var n := 0;
    ghost var stopped := false;
    SizePositive(f);
    for round := 0 to 16
      invariant SameFunction(f, g) && Size(g) < budget && Sites(g) != [] && !stopped
      invariant n >= round && Size(g) == Size(f) * Pow2(n)
    {
      var sites := Sites(g);
      if sites == [] {
        break;
      }
      var before := g;
      var answers := seq(|sites|, i requires 0 <= i < |sites| => accepts(before, i));
      var didAny;
      ghost var k;
      g, didAny, k := InlineRound(before, budget, answers);
      SameFunctionTrans(f, before, g);
      assert forall i :: 0 <= i < |sites| ==> answers[i] == accepts(before, i);
      Doublings(Size(f), n, Accepted(answers, k));
      n := n + Accepted(answers, k);
      if !didAny || Size(g) >= budget {
        stopped := true;
        break;
      }
    }
    if !stopped { SixteenDoublings(Size(f), n); }
    assert Size(g) < budget ==> !accepts(g, 0);
  }

  lemma SizePositive(e: Expr)
    ensures Size(e) > 0
  {
  }

  lemma {:induction false} Pow2Adds(n: nat, k: nat)
    ensures Pow2(n + k) == Pow2(n) * Pow2(k)
  {
    if k > 0 { Pow2Adds(n, k - 1); }
  }

  lemma Doublings(size: nat, n: nat, k: nat)
    ensures size * Pow2(n) * Pow2(k) == size * Pow2(n + k)
  {
    Pow2Adds(n, k);
  }

  lemma {:induction false} Pow2Grows(m: nat, n: nat)
    requires m <= n
    ensures 0 < Pow2(m) <= Pow2(n)
  {
    if m < n { Pow2Grows(m, n - 1); } else { Pow2Positive(n); }
  }

  lemma {:induction false} Pow2Positive(n: nat)
    ensures Pow2(n) > 0
  {
    if n > 0 { Pow2Positive(n - 1); }
  }

  lemma SixteenDoublings(size: nat, n: nat)
    requires size > 0 && n >= 16
    ensures size * Pow2(n) > 1500
  {
    Pow2Grows(11, n);
    Pow2Adds(5, 6);
    assert Pow2(5) == 32 && Pow2(6) == 64;
    AtLeast(size, Pow2(n));
  }

  lemma AtLeast(a: nat, b: nat)
    requires a > 0
    ensures a * b >= b
  {
  }
}
